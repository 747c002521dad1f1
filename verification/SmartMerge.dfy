/** Merging a generated skeleton into a source file that may already exist. */
module SmartMerge {
  import opened Bytes

  // Text: occurrence, split, strip, tokens.

  predicate OccursAt(k: string, s: string, i: nat) {
    i + |k| <= |s| && s[i..i + |k|] == k
  }

  ghost predicate Occurs(k: string, s: string) {
    exists i: nat :: OccursAt(k, s, i)
  }

  /** Position of the first occurrence from `from` on, or the length when there is none. */
  function Find(s: string, k: string, from: nat): (i: nat)
    requires k != "" && from <= |s|
    ensures from <= i <= |s|
    ensures i < |s| ==> OccursAt(k, s, i)
    ensures forall j: nat :: from <= j < i ==> !OccursAt(k, s, j)
    ensures i == |s| ==> forall j: nat :: from <= j ==> !OccursAt(k, s, j)
    decreases |s| - from
  {
    if from == |s| || OccursAt(k, s, from) then from else Find(s, k, from + 1)
  }

  /** str.split(sep) */
  function Split(s: string, sep: string): (pieces: seq<string>)
    requires sep != ""
    ensures pieces != []
    decreases |s|
  {
    var i := Find(s, sep, 0);
    if i == |s| then [s] else [s[..i]] + Split(s[i + |sep|..], sep)
  }

  /** The characters str.strip() and str.split() take for white space. */
  predicate IsSpace(c: char) {
    var n := c as int;
    || 0x09 <= n <= 0x0D || 0x1C <= n <= 0x20 || n == 0x85 || n == 0xA0 || n == 0x1680
    || 0x2000 <= n <= 0x200A || n == 0x2028 || n == 0x2029 || n == 0x202F || n == 0x205F || n == 0x3000
  }

  function StripLeft(s: string): string {
    if s != "" && IsSpace(s[0]) then StripLeft(s[1..]) else s
  }

  function StripRight(s: string): string {
    if s != "" && IsSpace(s[|s| - 1]) then StripRight(s[..|s| - 1]) else s
  }

  function Strip(s: string): string { StripRight(StripLeft(s)) }

  function WordEnd(s: string): (n: nat)
    ensures n <= |s|
    ensures forall i :: 0 <= i < n ==> !IsSpace(s[i])
    ensures s != "" && !IsSpace(s[0]) ==> n > 0
  {
    if s == "" || IsSpace(s[0]) then 0 else 1 + WordEnd(s[1..])
  }

  /** str.split() without a separator: the maximal runs of other characters. */
  function Tokens(s: string): seq<string>
    decreases |s|
  {
    if s == "" then []
    else if IsSpace(s[0]) then Tokens(s[1..])
    else [s[..WordEnd(s)]] + Tokens(s[WordEnd(s)..])
  }

  predicate StartsWith(s: string, prefix: string) { prefix <= s }

  predicate EndsWith(s: string, suffix: string) {
    |suffix| <= |s| && s[|s| - |suffix|..] == suffix
  }

  // What one block is about.

  predicate Skipped(stripped: string) {
    || stripped == "" || StartsWith(stripped, "/**") || StartsWith(stripped, "#include")
    || StartsWith(stripped, "LOG_MODULE_REGISTER")
  }

  predicate CommentLine(line: string) {
    var s := Strip(line);
    StartsWith(s, "/*") || StartsWith(s, "*") || StartsWith(s, "//")
  }

  /** The first line that is no comment; empty when there is none. */
  function SigLine(lines: seq<string>): string {
    if lines == [] then "" else if CommentLine(lines[0]) then SigLine(lines[1..]) else lines[0]
  }

  predicate Ignored(sig: string) {
    sig == "" || StartsWith(sig, "struct ") || StartsWith(sig, "K_") || StartsWith(sig, "typedef ")
  }

  function Blank(c: char): char {
    if c == '(' || c == ')' || c == '{' || c == '=' then ' ' else c
  }

  function Blanked(s: string): (t: string)
    ensures |t| == |s|
    ensures forall i :: 0 <= i < |s| ==> t[i] == Blank(s[i])
  {
    if s == "" then "" else [Blank(s[0])] + Blanked(s[1..])
  }

  predicate IsKey(token: string) {
    || StartsWith(token, "windrpc_on_") || StartsWith(token, "windrpc_notify_") || EndsWith(token, "_service")
    || token == "windrpc_services" || StartsWith(token, "rpc_")
  }

  function FirstKey(tokens: seq<string>): Option<string> {
    if tokens == [] then None else if IsKey(tokens[0]) then Some(tokens[0]) else FirstKey(tokens[1..])
  }

  /** The key token of a block, None for a block that merging passes over. */
  function Key(block: string): Option<string> {
    var stripped := Strip(block);
    if Skipped(stripped) then None
    else
      var sig := SigLine(Split(stripped, "\n"));
      if Ignored(sig) then None else FirstKey(Tokens(Blanked(sig)))
  }

  // The merge.

  predicate Missing(block: string, existing: string) {
    Key(block).Some? && !Contains(existing, Key(block).value)
  }

  /** The `in` operator on strings. */
  predicate Contains(s: string, k: string)
    ensures Contains(s, k) <==> Occurs(k, s)
  {
    if k == "" then assert OccursAt(k, s, 0); true
    else Find(s, k, 0) < |s|
  }

  function Additions(blocks: seq<string>, existing: string): seq<string> {
    if blocks == [] then []
    else (if Missing(blocks[0], existing) then [blocks[0]] else []) + Additions(blocks[1..], existing)
  }

  function Join(sep: string, pieces: seq<string>): string {
    if pieces == [] then "" else if |pieces| == 1 then pieces[0] else pieces[0] + sep + Join(sep, pieces[1..])
  }

  function Banner(): string {
    "\n\n/* ========================================================================== */\n"
    + "/* --- AUTO-GENERATED ADDITIONS (New RPCs / Services) ---                     */\n"
    + "/* ========================================================================== */\n\n"
  }

  function Blocks(skeleton: string): seq<string> { Split(skeleton, "\n\n") }

  function Extended(existing: string, additions: seq<string>): string {
    if additions == [] then existing else existing + Banner() + Join("\n\n", additions) + "\n"
  }

  /** The file after merging; None stands for no file. */
  function Merged(file: Option<string>, skeleton: string): string {
    match file
    case None => skeleton
    case Some(existing) => Extended(existing, Additions(Blocks(skeleton), existing))
  }

  class TextFile {
    var content: Option<string>

    constructor (content: Option<string>)
      ensures this.content == content
    {
      this.content := content;
    }

    method WriteSmartMerge(skeleton: string)
      modifies this
      ensures content == Some(Merged(old(content), skeleton))
    {
      hide Key, Split, Banner, Join;
      if content.None? {
        content := Some(skeleton);
        return;
      }
      var existing := content.value;
      var blocks := Split(skeleton, "\n\n");
      var additions := [];
      for n := 0 to |blocks|
        invariant content == old(content)
        invariant additions == Additions(blocks[..n], existing)
      {
        hide Additions;
        var block := blocks[n];
        var key := KeyToken(block);
        AdditionsSnoc(blocks[..n], block, existing);
        assert blocks[..n + 1] == blocks[..n] + [block];
        if key.Some? && !Contains(existing, key.value) {
          additions := additions + [block];
        }
      }
      assert blocks[..|blocks|] == blocks;
      if additions != [] {
        content := Some(existing + Banner() + Join("\n\n", additions) + "\n");
      }
    }
  }

  method KeyToken(block: string) returns (key: Option<string>)
    ensures key == Key(block)
  {
    var stripped := Strip(block);
    if stripped == "" {
      return None;
    }
    if StartsWith(stripped, "/**") || StartsWith(stripped, "#include") || StartsWith(stripped, "LOG_MODULE_REGISTER") {
      return None;
    }
    var lines := Split(stripped, "\n");
    var sig := "";
    for i := 0 to |lines|
      invariant sig == ""
      invariant SigLine(lines) == SigLine(lines[i..])
    {
      hide CommentLine, Split, Strip;
      assert lines[i..][1..] == lines[i + 1..];
      if !CommentLine(lines[i]) {
        sig := lines[i];
        break;
      }
    }
    assert sig == SigLine(lines);
    if Ignored(sig) {
      return None;
    }
    var tokens := Tokens(Blanked(sig));
    key := None;
    for i := 0 to |tokens|
      invariant key == None
      invariant FirstKey(tokens) == FirstKey(tokens[i..])
    {
      hide Tokens, IsKey, Strip, Split;
      assert tokens[i..][1..] == tokens[i + 1..];
      if IsKey(tokens[i]) {
        key := Some(tokens[i]);
        break;
      }
    }
  }

  lemma {:induction false} AdditionsSnoc(blocks: seq<string>, b: string, existing: string)
    ensures Additions(blocks + [b], existing)
         == Additions(blocks, existing) + if Missing(b, existing) then [b] else []
  {
    hide Missing;
    if blocks == [] {
      assert blocks + [b] == [b];
    } else {
      assert (blocks + [b])[1..] == blocks[1..] + [b];
      AdditionsSnoc(blocks[1..], b, existing);
      Assoc(if Missing(blocks[0], existing) then [blocks[0]] else [], Additions(blocks[1..], existing),
            if Missing(b, existing) then [b] else []);
    }
  }

  // Occurrence.

  lemma OccursTrans(a: string, b: string, c: string)
    requires Occurs(a, b) && Occurs(b, c)
    ensures Occurs(a, c)
  {
    var i: nat :| OccursAt(a, b, i);
    var j: nat :| OccursAt(b, c, j);
    forall x | 0 <= x < |a|
      ensures c[j + i + x] == a[x]
    {
      assert c[j..j + |b|][i + x] == b[i + x] == b[i..i + |a|][x];
    }
    assert c[j + i..j + i + |a|] == a;
    assert OccursAt(a, c, j + i);
  }

  lemma OccursIn(pre: string, s: string, post: string)
    ensures Occurs(s, pre + s + post)
  {
    assert OccursAt(s, pre + s + post, |pre|);
  }

  lemma OccursSlice(p: string, s: string, i: nat, j: nat)
    requires i <= j <= |s| && p == s[i..j]
    ensures Occurs(p, s)
  {
    assert OccursAt(p, s, i);
  }

  lemma {:induction false} SplitPieceOccurs(s: string, sep: string, p: string)
    requires sep != "" && p in Split(s, sep)
    ensures Occurs(p, s)
    decreases |s|
  {
    hide Occurs, Find;
    var i := Find(s, sep, 0);
    if i == |s| {
      OccursSlice(p, s, 0, |s|);
    } else if p == s[..i] {
      OccursSlice(p, s, 0, i);
    } else {
      SplitPieceOccurs(s[i + |sep|..], sep, p);
      OccursSlice(s[i + |sep|..], s, i + |sep|, |s|);
      OccursTrans(p, s[i + |sep|..], s);
    }
  }

  lemma {:induction false} StripLeftOccurs(s: string)
    ensures Occurs(StripLeft(s), s)
  {
    if s != "" && IsSpace(s[0]) {
      StripLeftOccurs(s[1..]);
      OccursSlice(s[1..], s, 1, |s|);
      OccursTrans(StripLeft(s), s[1..], s);
    } else {
      OccursSlice(s, s, 0, |s|);
    }
  }

  lemma {:induction false} StripRightOccurs(s: string)
    ensures Occurs(StripRight(s), s)
  {
    if s != "" && IsSpace(s[|s| - 1]) {
      StripRightOccurs(s[..|s| - 1]);
      OccursSlice(s[..|s| - 1], s, 0, |s| - 1);
      OccursTrans(StripRight(s), s[..|s| - 1], s);
    } else {
      OccursSlice(s, s, 0, |s|);
    }
  }

  lemma {:induction false} TokenOccurs(s: string, t: string)
    requires t in Tokens(s)
    ensures Occurs(t, s) && t != "" && forall i :: 0 <= i < |t| ==> !IsSpace(t[i])
    decreases |s|
  {
    var n := if IsSpace(s[0]) then 1 else WordEnd(s);
    if !IsSpace(s[0]) && t == s[..n] {
      OccursSlice(t, s, 0, n);
    } else {
      TokenOccurs(s[n..], t);
      OccursSlice(s[n..], s, n, |s|);
      OccursTrans(t, s[n..], s);
    }
  }

  /** A token that holds no blank comes through the blanking untouched. */
  lemma BlankedTokenOccurs(sig: string, t: string)
    requires t in Tokens(Blanked(sig))
    ensures Occurs(t, sig)
  {
    hide Tokens;
    TokenOccurs(Blanked(sig), t);
    var i: nat :| OccursAt(t, Blanked(sig), i);
    forall j | 0 <= j < |t|
      ensures sig[i + j] == t[j]
    {
      assert Blanked(sig)[i..i + |t|][j] == Blanked(sig)[i + j] == Blank(sig[i + j]);
    }
    assert sig[i..i + |t|] == t;
    assert OccursAt(t, sig, i);
  }

  lemma {:induction false} FirstKeyIsToken(tokens: seq<string>)
    requires FirstKey(tokens).Some?
    ensures FirstKey(tokens).value in tokens && IsKey(FirstKey(tokens).value)
  {
    if !IsKey(tokens[0]) {
      FirstKeyIsToken(tokens[1..]);
    }
  }

  lemma {:induction false} SigLineIsLine(lines: seq<string>)
    ensures SigLine(lines) == "" || (SigLine(lines) in lines && !CommentLine(SigLine(lines)))
  {
    if lines != [] && CommentLine(lines[0]) {
      SigLineIsLine(lines[1..]);
    }
  }

  lemma KeyOccurs(block: string)
    requires Key(block).Some?
    ensures Occurs(Key(block).value, block)
  {
    hide Split, Tokens, SigLine, FirstKey, StripLeft, StripRight, Ignored, Skipped, Blanked, Occurs, IsKey;
    var k := Key(block).value;
    var stripped := Strip(block);
    var lines := Split(stripped, "\n");
    var sig := SigLine(lines);
    FirstKeyIsToken(Tokens(Blanked(sig)));
    BlankedTokenOccurs(sig, k);
    SigLineIsLine(lines);
    SigNotEmpty(sig);
    SplitPieceOccurs(stripped, "\n", sig);
    OccursTrans(k, sig, stripped);
    StripRightOccurs(StripLeft(block));
    StripLeftOccurs(block);
    OccursTrans(stripped, StripLeft(block), block);
    OccursTrans(k, stripped, block);
  }

  lemma SigNotEmpty(sig: string)
    requires !Ignored(sig)
    ensures sig != ""
  {
  }

  // What the string operations promise.

  /** Splitting loses nothing, and no piece contains the separator. */
  lemma {:induction false} SplitJoins(s: string, sep: string)
    requires sep != ""
    ensures Join(sep, Split(s, sep)) == s
    ensures forall p :: p in Split(s, sep) ==> !Occurs(sep, p)
    decreases |s|
  {
    hide Find;
    var i := Find(s, sep, 0);
    if i < |s| {
      var rest := s[i + |sep|..];
      SplitJoins(rest, sep);
      assert s == s[..i] + sep + rest;
      forall j: nat
        ensures !OccursAt(sep, s[..i], j)
      {
        if j + |sep| <= i {
          assert !OccursAt(sep, s, j);
          assert s[..i][j..j + |sep|] == s[j..j + |sep|];
        }
      }
    }
  }

  /** Stripping takes off white space at both ends, and all of it. */
  lemma StripTrims(s: string) returns (before: string, after: string)
    ensures s == before + Strip(s) + after
    ensures forall i :: 0 <= i < |before| ==> IsSpace(before[i])
    ensures forall i :: 0 <= i < |after| ==> IsSpace(after[i])
    ensures Strip(s) != "" ==> !IsSpace(Strip(s)[0]) && !IsSpace(Strip(s)[|Strip(s)| - 1])
  {
    hide IsSpace;
    before := StripLeftTrims(s);
    after := StripRightTrims(StripLeft(s));
    Assoc(before, Strip(s), after);
  }

  lemma {:induction false} StripLeftTrims(s: string) returns (before: string)
    ensures s == before + StripLeft(s) && forall i :: 0 <= i < |before| ==> IsSpace(before[i])
    ensures StripLeft(s) != "" ==> !IsSpace(StripLeft(s)[0])
  {
    hide IsSpace;
    before := "";
    if s != "" && IsSpace(s[0]) {
      var more := StripLeftTrims(s[1..]);
      before := [s[0]] + more;
    }
  }

  lemma {:induction false} StripRightTrims(s: string) returns (after: string)
    ensures s == StripRight(s) + after && forall i :: 0 <= i < |after| ==> IsSpace(after[i])
    ensures StripRight(s) != "" ==> !IsSpace(StripRight(s)[|StripRight(s)| - 1]) && StripRight(s)[0] == s[0]
    decreases |s|
  {
    hide IsSpace;
    after := "";
    if s != "" && IsSpace(s[|s| - 1]) {
      var more := StripRightTrims(s[..|s| - 1]);
      after := more + [s[|s| - 1]];
    }
  }

  /** Words with single spaces between them are split into just those words. */
  lemma {:induction false} TokensOfWords(words: seq<string>)
    requires forall w :: w in words ==> IsWord(w)
    ensures Tokens(Join(" ", words)) == words
  {
    hide IsSpace, Blank;
    SpaceIsSpace();
    if words != [] {
      var w := words[0];
      assert IsWord(w);
      if |words| == 1 {
        WordEndsLast(w);
        assert w[..|w|] == w && w[|w|..] == "";
      } else {
        TokensOfWords(words[1..]);
        TokensWord(w, ' ', Join(" ", words[1..]));
        assert w + " " + Join(" ", words[1..]) == w + ([' '] + Join(" ", words[1..]));
      }
    }
  }

  lemma SpaceIsSpace()
    ensures IsSpace(' ') && IsSpace('\t') && IsSpace('\n') && IsSpace('\r')
  {
  }

  lemma {:induction false} WordEndsLast(w: string)
    requires forall i :: 0 <= i < |w| ==> !IsSpace(w[i])
    ensures WordEnd(w) == |w|
  {
    if w != "" {
      WordEndsLast(w[1..]);
    }
  }

  // The merge keeps what is there, adds what is missing, and is stable.

  lemma {:induction false} AdditionsExactly(blocks: seq<string>, existing: string, b: string)
    ensures b in Additions(blocks, existing) <==> b in blocks && Missing(b, existing)
  {
    hide Missing;
    if blocks != [] {
      AdditionsExactly(blocks[1..], existing, b);
      assert blocks == [blocks[0]] + blocks[1..];
    }
  }

  lemma {:induction false} JoinPieceOccurs(sep: string, pieces: seq<string>, p: string)
    requires p in pieces
    ensures Occurs(p, Join(sep, pieces))
  {
    hide Occurs;
    if p == pieces[0] {
      OccursIn("", p, if |pieces| == 1 then "" else sep + Join(sep, pieces[1..]));
      if |pieces| > 1 {
        Assoc(p, sep, Join(sep, pieces[1..]));
      }
      assert "" + p == p && p + "" == p;
    } else {
      var rest := Join(sep, pieces[1..]);
      JoinPieceOccurs(sep, pieces[1..], p);
      OccursIn(pieces[0] + sep, rest, "");
      assert pieces[0] + sep + rest + "" == Join(sep, pieces);
      OccursTrans(p, rest, Join(sep, pieces));
    }
  }

  lemma KeepsExisting(existing: string, skeleton: string)
    ensures existing <= Merged(Some(existing), skeleton)
  {
    hide Blocks, Additions, Banner, Join;
    var additions := Additions(Blocks(skeleton), existing);
    if additions != [] {
      assert Merged(Some(existing), skeleton) == existing + (Banner() + Join("\n\n", additions) + "\n");
    }
  }

  /** Every key token of a block that merging does not pass over occurs in the result. */
  lemma KeysPresent(file: Option<string>, skeleton: string, block: string)
    requires block in Blocks(skeleton) && Key(block).Some?
    ensures Occurs(Key(block).value, Merged(file, skeleton))
  {
    hide Blocks, Additions, Banner, Join, Key, Occurs;
    var k := Key(block).value;
    KeyOccurs(block);
    match file
    case None =>
      BlockOccurs(skeleton, block);
      OccursTrans(k, block, skeleton);
    case Some(existing) =>
      var additions := Additions(Blocks(skeleton), existing);
      AdditionsExactly(Blocks(skeleton), existing, block);
      var text := Join("\n\n", additions);
      if block in additions {
        JoinPieceOccurs("\n\n", additions, block);
        OccursTrans(k, block, text);
        OccursIn(existing + Banner(), text, "\n");
        OccursTrans(k, text, Merged(file, skeleton));
      } else {
        KeepsExisting(existing, skeleton);
        PrefixOccurs(existing, Merged(file, skeleton));
        OccursTrans(k, existing, Merged(file, skeleton));
      }
  }

  lemma PrefixOccurs(s: string, t: string)
    requires s <= t
    ensures Occurs(s, t)
  {
    OccursSlice(s, t, 0, |s|);
  }

  lemma BlockOccurs(skeleton: string, block: string)
    requires block in Blocks(skeleton)
    ensures Occurs(block, skeleton)
  {
    hide Split, Occurs;
    SplitPieceOccurs(skeleton, "\n\n", block);
  }

  /** A merge leaves a file alone exactly when it already mentions every key token. */
  lemma UnchangedIff(existing: string, skeleton: string)
    ensures Merged(Some(existing), skeleton) == existing <==>
            forall block :: block in Blocks(skeleton) && Key(block).Some? ==> Occurs(Key(block).value, existing)
  {
    hide Blocks, Additions, Banner, Join, Key, Occurs;
    var additions := Additions(Blocks(skeleton), existing);
    forall block
      ensures block in additions <==> block in Blocks(skeleton) && Missing(block, existing)
    {
      AdditionsExactly(Blocks(skeleton), existing, block);
    }
    if additions != [] {
      assert additions[0] in additions;
      assert |Merged(Some(existing), skeleton)| > |existing|;
    }
  }

  /** Merging a skeleton twice is merging it once. */
  lemma MergeIdempotent(file: Option<string>, skeleton: string)
    ensures Merged(Some(Merged(file, skeleton)), skeleton) == Merged(file, skeleton)
  {
    hide Blocks, Merged, Key, Occurs;
    var once := Merged(file, skeleton);
    forall block | block in Blocks(skeleton) && Key(block).Some?
      ensures Occurs(Key(block).value, once)
    {
      KeysPresent(file, skeleton, block);
    }
    UnchangedIff(once, skeleton);
  }

  // What key a signature has.

  /** A non-empty run of characters that neither the strip nor the blanking touches. */
  predicate IsWord(w: string) {
    w != "" && forall i :: 0 <= i < |w| ==> !IsSpace(w[i]) && Blank(w[i]) == w[i]
  }

  lemma {:induction false} WordEndsAt(w: string, c: char, t: string)
    requires IsSpace(c) && forall i :: 0 <= i < |w| ==> !IsSpace(w[i])
    ensures WordEnd(w + ([c] + t)) == |w|
  {
    if w == "" {
      assert w + ([c] + t) == [c] + t;
    } else {
      assert (w + ([c] + t))[1..] == w[1..] + ([c] + t);
      WordEndsAt(w[1..], c, t);
    }
  }

  lemma TokensWord(w: string, c: char, t: string)
    requires IsWord(w) && IsSpace(c)
    ensures Tokens(w + ([c] + t)) == [w] + Tokens(t)
  {
    var s := w + ([c] + t);
    WordEndsAt(w, c, t);
    assert s[..|w|] == w && s[|w|..] == [c] + t;
    assert ([c] + t)[1..] == t;
  }

  lemma OneLine(s: string, sep: string)
    requires '\n' !in s && sep != "" && sep[0] == '\n'
    ensures Split(s, sep) == [s]
  {
    forall i: nat | i + |sep| <= |s|
      ensures !OccursAt(sep, s, i)
    {
      assert s[i..i + |sep|][0] == s[i];
    }
  }

  lemma StripNothing(s: string)
    requires s != "" && !IsSpace(s[0]) && !IsSpace(s[|s| - 1])
    ensures Strip(s) == s
  {
  }

  /** What may follow a name: its parameters, a body or an initialiser. */
  const SEPARATORS := ['(', ')', '{', '=', ' ']

  /** The key of a one-line block that starts with a type and a name is that name. */
  lemma SignatureKey(ret: string, name: string, sep: char, rest: string)
    requires IsWord(ret) && !IsKey(ret) && IsWord(name) && IsKey(name) && sep in SEPARATORS
    requires '\n' !in rest && rest != "" && !IsSpace(rest[|rest| - 1])
    requires var block := ret + (" " + (name + ([sep] + rest)));
             !Skipped(block) && !CommentLine(block) && !Ignored(block)
    ensures Key(ret + (" " + (name + ([sep] + rest)))) == Some(name)
  {
    hide Skipped, CommentLine, Ignored, IsKey, Split, Strip, Tokens, FirstKey, Blanked;
    var block := ret + (" " + (name + ([sep] + rest)));
    assert block[0] == ret[0] && block[|block| - 1] == rest[|rest| - 1];
    StripNothing(block);
    NewlineIsSpace(ret);
    NewlineIsSpace(name);
    OneLine(block, "\n");
    assert SigLine([block]) == block;
    BlankedSignature(ret, name, sep, rest);
    SignatureTokens(ret, name, Blanked(rest));
  }

  lemma BlankedSignature(ret: string, name: string, sep: char, rest: string)
    requires IsWord(ret) && IsWord(name) && sep in SEPARATORS
    ensures Blanked(ret + (" " + (name + ([sep] + rest)))) == ret + ([' '] + (name + ([' '] + Blanked(rest))))
  {
    hide Blanked, IsWord, SEPARATORS;
    BlankedConcat(ret, " " + (name + ([sep] + rest)));
    BlankedConcat(" ", name + ([sep] + rest));
    BlankedConcat(name, [sep] + rest);
    BlankedConcat([sep], rest);
    BlankedWord(ret);
    BlankedWord(name);
    BlankedSeparator(' ');
    BlankedSeparator(sep);
  }

  lemma BlankedWord(w: string)
    requires IsWord(w)
    ensures Blanked(w) == w
  {
    hide Blank, IsSpace;
  }

  lemma BlankedSeparator(sep: char)
    ensures sep in SEPARATORS ==> Blanked([sep]) == " "
    ensures ' ' in SEPARATORS
  {
  }

  lemma BlankedConcat(a: string, b: string)
    ensures Blanked(a + b) == Blanked(a) + Blanked(b)
  {
  }

  lemma SignatureTokens(ret: string, name: string, tail: string)
    requires IsWord(ret) && !IsKey(ret) && IsWord(name) && IsKey(name)
    ensures FirstKey(Tokens(ret + ([' '] + (name + ([' '] + tail))))) == Some(name)
  {
    hide Tokens, IsWord, IsKey;
    TokensWord(ret, ' ', name + ([' '] + tail));
    TokensWord(name, ' ', tail);
    var tokens := [ret] + ([name] + Tokens(tail));
    assert tokens[1..] == [name] + Tokens(tail);
  }

  /** The tokens that name something generated. */
  lemma KeyForms(t: string)
    ensures IsKey(t) <==>
              || t == "windrpc_services"
              || exists rest ::
                   t in ["windrpc_on_" + rest, "windrpc_notify_" + rest, "rpc_" + rest, rest + "_service"]
  {
    if StartsWith(t, "windrpc_on_") {
      assert t == "windrpc_on_" + t[|"windrpc_on_"|..];
    } else if StartsWith(t, "windrpc_notify_") {
      assert t == "windrpc_notify_" + t[|"windrpc_notify_"|..];
    } else if StartsWith(t, "rpc_") {
      assert t == "rpc_" + t[|"rpc_"|..];
    } else if EndsWith(t, "_service") {
      assert t == t[..|t| - |"_service"|] + "_service";
    }
  }

  /** A one-line block that opens like this is passed over, whatever it names. */
  lemma DeclarationPassedOver(rest: string)
    requires '\n' !in rest && rest != "" && !IsSpace(rest[|rest| - 1])
    ensures Key("struct " + rest).None? && Key("K_" + rest).None? && Key("typedef " + rest).None?
  {
    hide Split, Strip, Key;
    OpensWith("struct ", rest);
    OpensWith("K_", rest);
    OpensWith("typedef ", rest);
  }

  lemma OpensWith(p: string, rest: string)
    requires p == "struct " || p == "K_" || p == "typedef "
    requires '\n' !in rest && rest != "" && !IsSpace(rest[|rest| - 1])
    ensures Key(p + rest).None?
  {
    hide Split, Strip, Tokens, FirstKey, Blanked, Skipped, CommentLine;
    var block := p + rest;
    OneLine(block, "\n");
    StripNothing(block);
    if !CommentLine(block) {
      assert SigLine([block]) == block;
      assert p <= block;
    } else {
      assert SigLine([block]) == SigLine([block][1..]);
    }
  }

  /** Such a block without a comment is merged, whole, when its name does not occur in the file. */
  lemma BareSignatureMerged(existing: string, ret: string, name: string, sep: char, rest: string)
    requires IsWord(ret) && !IsKey(ret) && IsWord(name) && IsKey(name) && sep in SEPARATORS
    requires '\n' !in rest && rest != "" && !IsSpace(rest[|rest| - 1])
    requires var block := ret + (" " + (name + ([sep] + rest)));
             !Skipped(block) && !CommentLine(block) && !Ignored(block)
    requires !Occurs(name, existing)
    ensures var block := ret + (" " + (name + ([sep] + rest)));
            Merged(Some(existing), block) == existing + Banner() + block + "\n"
  {
    hide Key, Skipped, CommentLine, Ignored, IsKey, Split, Occurs, Banner;
    var block := ret + (" " + (name + ([sep] + rest)));
    SignatureKey(ret, name, sep, rest);
    NewlineIsSpace(ret);
    NewlineIsSpace(name);
    OneLine(block, "\n\n");
    assert Additions([block][1..], existing) == [];
    assert Additions([block], existing) == [block];
  }

  lemma NewlineIsSpace(w: string)
    requires IsWord(w)
    ensures '\n' !in w
  {
  }

  // Skeletons of documented and comment-only blocks.

  /** No blank line inside, no line break at the end. */
  predicate OneBlock(b: string) {
    forall i :: 0 <= i < |b| && b[i] == '\n' ==> i + 1 < |b| && b[i + 1] != '\n'
  }

  function Text(blocks: seq<string>): string {
    if blocks == [] then "" else blocks[0] + ("\n\n" + Text(blocks[1..]))
  }

  lemma NotInside(b: string, s: string, i: nat)
    requires OneBlock(b) && b <= s && i < |b|
    ensures !OccursAt("\n\n", s, i)
  {
    if i + 2 <= |s| && b[i] == '\n' {
      assert s[i..i + 2][1] == s[i + 1] == b[i + 1];
    } else if i + 2 <= |s| {
      assert s[i..i + 2][0] == s[i] == b[i];
    }
  }

  lemma FindBreak(b: string, rest: string)
    requires OneBlock(b)
    ensures Find(b + ("\n\n" + rest), "\n\n", 0) == |b|
  {
    var s := b + ("\n\n" + rest);
    var i := Find(s, "\n\n", 0);
    assert s[|b|..|b| + 2] == "\n\n";
    assert OccursAt("\n\n", s, |b|);
    if i < |b| {
      NotInside(b, s, i);
    }
  }

  lemma {:induction false} SplitText(blocks: seq<string>)
    requires forall b :: b in blocks ==> OneBlock(b)
    ensures Split(Text(blocks), "\n\n") == blocks + [""]
  {
    hide Find;
    if blocks != [] {
      var rest := Text(blocks[1..]);
      FindBreak(blocks[0], rest);
      var s := blocks[0] + ("\n\n" + rest);
      assert s[..|blocks[0]|] == blocks[0] && s[|blocks[0]| + 2..] == rest;
      SplitText(blocks[1..]);
    }
  }

  predicate DocCommented(b: string) {
    StartsWith(b, "/**") || StartsWith(b, "#include") || StartsWith(b, "LOG_MODULE_REGISTER")
  }

  predicate CommentOnly(b: string) {
    forall line :: line in Split(Strip(b), "\n") ==> CommentLine(line)
  }

  lemma {:induction false} StripKeepsPrefix(s: string, p: string)
    requires p != "" && p <= s && !IsSpace(p[0]) && !IsSpace(p[|p| - 1])
    ensures StripLeft(s) == s && p <= StripRight(s)
  {
    if IsSpace(s[|s| - 1]) {
      assert |p| != |s|;
      StripKeepsPrefix(s[..|s| - 1], p);
    }
  }

  lemma DocCommentedHasNoKey(b: string)
    requires DocCommented(b)
    ensures Key(b).None?
  {
    if StartsWith(b, "/**") {
      StripKeepsPrefix(b, "/**");
    } else if StartsWith(b, "#include") {
      StripKeepsPrefix(b, "#include");
    } else {
      StripKeepsPrefix(b, "LOG_MODULE_REGISTER");
    }
  }

  lemma CommentOnlyHasNoKey(b: string)
    requires CommentOnly(b)
    ensures Key(b).None?
  {
    hide Split, Strip, CommentLine;
    SigLineIsLine(Split(Strip(b), "\n"));
  }

  /** Whatever the existing file holds, such a skeleton adds nothing to it. */
  lemma CommentedSkeletonAddsNothing(existing: string, blocks: seq<string>)
    requires forall b :: b in blocks ==> OneBlock(b) && (DocCommented(b) || CommentOnly(b))
    ensures Merged(Some(existing), Text(blocks)) == existing
  {
    hide Key, DocCommented, CommentOnly, OneBlock, Merged, Text, Split, Occurs;
    SplitText(blocks);
    forall b | b in blocks + [""]
      ensures Key(b).None?
    {
      if b in blocks && DocCommented(b) {
        DocCommentedHasNoKey(b);
      } else if b in blocks {
        CommentOnlyHasNoKey(b);
      } else {
        EmptyHasNoKey();
      }
    }
    UnchangedIff(existing, Text(blocks));
  }

  lemma EmptyHasNoKey()
    ensures Key("").None?
  {
  }

  predicate IsLine(line: string) { line != "" && '\n' !in line }

  lemma {:induction false} LinesAreOneBlock(lines: seq<string>)
    requires forall line :: line in lines ==> IsLine(line)
    ensures OneBlock(Join("\n", lines)) && (lines != [] ==> Join("\n", lines) != "" && Join("\n", lines)[0] != '\n')
  {
    if |lines| == 1 {
      assert lines[0] in lines;
    } else if lines != [] {
      var rest := Join("\n", lines[1..]);
      LinesAreOneBlock(lines[1..]);
      assert IsLine(lines[0]);
      var b := lines[0] + "\n" + rest;
      forall i | 0 <= i < |b| && b[i] == '\n'
        ensures i + 1 < |b| && b[i + 1] != '\n'
      {
        if i > |lines[0]| {
          assert b[i] == rest[i - |lines[0]| - 1];
        }
      }
    }
  }

  lemma {:induction false} SplitJoin(texts: seq<string>)
    requires texts != [] && forall t :: t in texts ==> IsLine(t)
    ensures Split(Join("\n", texts), "\n") == texts
  {
    if |texts| == 1 {
      assert texts[0] in texts;
      OneLine(texts[0], "\n");
    } else {
      var rest := Join("\n", texts[1..]);
      assert texts[0] in texts;
      FindLineBreak(texts[0], rest);
      var s := texts[0] + "\n" + rest;
      assert s[..|texts[0]|] == texts[0] && s[|texts[0]| + 1..] == rest;
      SplitJoin(texts[1..]);
    }
  }

  lemma FindLineBreak(t: string, rest: string)
    requires '\n' !in t
    ensures Find(t + "\n" + rest, "\n", 0) == |t|
  {
    var s := t + "\n" + rest;
    assert OccursAt("\n", s, |t|);
    forall i: nat | i < |t|
      ensures !OccursAt("\n", s, i)
    {
      assert s[i..i + 1][0] == t[i];
    }
  }

  // Below comments that are no documentation.

  /** Lines that are comments without being documentation. */
  predicate PlainComment(line: string) {
    IsLine(line) && (StartsWith(line, "//") || (StartsWith(line, "/*") && !StartsWith(line, "/**")))
  }

  /**
   Below plain comments the first code line decides, whatever lines follow it: the key of the block is that line's
   function name.  So it is the documentation comment alone that keeps a handler from being merged.
   */
  lemma PlainCommentsKeepKey(
    comments: seq<string>, ret: string, name: string, sep: char, rest: string, more: seq<string>)
    requires forall c :: c in comments ==> PlainComment(c)
    requires IsWord(ret) && !IsKey(ret) && IsWord(name) && IsKey(name) && IsLine(rest) && sep in SEPARATORS
    requires forall line :: line in more ==> IsLine(line)
    requires var sig := ret + (" " + (name + ([sep] + rest)));
             var lines := comments + [sig] + more;
             && !CommentLine(sig) && !Ignored(sig) && !Skipped(Join("\n", lines))
             && lines[|lines| - 1] != "" && !IsSpace(Last(lines[|lines| - 1]))
    ensures var sig := ret + (" " + (name + ([sep] + rest)));
            Key(Join("\n", comments + [sig] + more)) == Some(name)
  {
    hide Skipped, CommentLine, Ignored, IsKey, Split, Strip, Tokens, FirstKey, Blanked, Join, PlainComment, IsWord;
    var sig := ret + (" " + (name + ([sep] + rest)));
    SignatureIsLine(ret, name, sep, rest);
    var lines := comments + [sig] + more;
    PlainLines(comments);
    SplitJoin(lines);
    JoinEdges(lines);
    assert comments == [] ==> lines[0] == sig;
    StripNothing(Join("\n", lines));
    SigBelow(comments, sig, more);
    BlankedSignature(ret, name, sep, rest);
    SignatureTokens(ret, name, Blanked(rest));
  }

  lemma SignatureIsLine(ret: string, name: string, sep: char, rest: string)
    requires IsWord(ret) && IsWord(name) && IsLine(rest) && sep in SEPARATORS
    ensures var sig := ret + (" " + (name + ([sep] + rest)));
            IsLine(sig) && !IsSpace(sig[0])
  {
    NewlineIsSpace(ret);
    NewlineIsSpace(name);
  }

  lemma PlainLines(comments: seq<string>)
    requires forall c :: c in comments ==> PlainComment(c)
    ensures forall c :: c in comments ==> IsLine(c) && !IsSpace(c[0]) && CommentLine(c)
  {
    hide CommentLine;
    forall c | c in comments
      ensures CommentLine(c)
    {
      PlainIsComment(c);
    }
  }

  lemma PlainIsComment(c: string)
    requires PlainComment(c)
    ensures CommentLine(c)
  {
    StripKeepsPrefix(c, if StartsWith(c, "//") then "//" else "/*");
  }

  lemma {:induction false} JoinEdges(lines: seq<string>)
    requires lines != [] && forall line :: line in lines ==> IsLine(line)
    ensures var s := Join("\n", lines);
            && s != "" && lines[0] != "" && s[0] == lines[0][0]
            && lines[|lines| - 1] != "" && Last(s) == Last(lines[|lines| - 1])
  {
    assert IsLine(lines[0]);
    if |lines| > 1 {
      JoinEdges(lines[1..]);
    }
  }

  lemma {:induction false} SigBelow(comments: seq<string>, sig: string, more: seq<string>)
    requires !CommentLine(sig) && forall c :: c in comments ==> CommentLine(c)
    ensures SigLine(comments + [sig] + more) == sig
  {
    hide CommentLine;
    var lines := comments + [sig] + more;
    if comments != [] {
      assert lines[1..] == comments[1..] + [sig] + more;
      SigBelow(comments[1..], sig, more);
    }
  }

  function Last(s: string): char
    requires s != ""
  {
    s[|s| - 1]
  }
}
