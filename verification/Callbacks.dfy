/** The callback skeleton the server generator emits, and what merging makes of it. */
module Callbacks {
  import opened Bytes
  import Spec
  import opened SmartMerge

  /** `cmdType` and `resType` are the C types its messages resolve to, "void" for none. */
  datatype CallbackRpc = CallbackRpc(name: string, typ: string, cmdType: string, resType: string)
  datatype CallbackService = CallbackService(name: string, rpcs: seq<CallbackRpc>)

  // A line is given by the pieces of its format string.

  type Line = seq<string>

  function LineText(line: Line): string { Flatten(line) }

  function Texts(lines: seq<Line>): seq<string> {
    if lines == [] then [] else [LineText(lines[0])] + Texts(lines[1..])
  }

  function Block(lines: seq<Line>): string { Join("\n", Texts(lines)) }

  // The fixed blocks.

  function FileLine(): Line { [" * @file ", "windrpc_callbacks.c"] }

  function SkeletonLine(): Line { [" * @brief Auto-generated ", "Callbacks Skeleton for ", "WindRPC server."] }

  function NoteLine(): Line { [" * @note Copy this file as ", "windrpc_callbacks.c ", "and implement your logic."] }

  function HeaderLines(): (lines: seq<Line>)
    ensures lines != []
  {
    [["/**"], FileLine(), SkeletonLine(), NoteLine(), [" */"]]
  }

  function ZephyrLines(): seq<Line> {
    [["#ifdef __ZEPHYR__"], ["#include ", "<zephyr/logging/log.h>"], ["#endif"]]
  }

  function IncludeLines(): (lines: seq<Line>)
    ensures lines != []
  {
    [["#include", " \"windrpc.h\""]] + ZephyrLines() + [["#include", " <stdio.h>"]]
  }

  function LogLines(): (lines: seq<Line>)
    ensures lines != []
  {
    [["LOG_MODULE_REGISTER", "(windrpc_callbacks, ", "LOG_LEVEL_INF);"]]
  }

  function Repeat(c: char, n: nat): string {
    if n == 0 then "" else [c] + Repeat(c, n - 1)
  }

  function Ruler(): Line { ["/* ", Repeat('=', 74), " */"] }

  function BannerLines(svc: string): (lines: seq<Line>)
    ensures lines != []
  {
    [Ruler(),
     ["/* ", Repeat(' ', 28), "Service: ", svc, Repeat(' ', 26), " */"],
     Ruler()]
  }

  // One handler.

  /** The function a handler block defines. */
  function HandlerName(rpc: CallbackRpc): string {
    (if Spec.KindOf(rpc.typ) == Some(Spec.Notification) then "windrpc_on_subscribe_" else "windrpc_on_") + rpc.name
  }

  function BriefLine(rpc: CallbackRpc): Line {
    match Spec.KindOf(rpc.typ)
    case Some(Notification) => [" * @brief Execute handler for ", "subscribing to ", rpc.name]
    case Some(RequestOnly) => [" * @brief Execute handler for ", "RPC ", rpc.name, " (no response)"]
    case _ => [" * @brief Execute handler for ", "RPC ", rpc.name]
  }

  function CmdArg(rpc: CallbackRpc): string { "const " + rpc.cmdType + " *req" }

  function ResArg(rpc: CallbackRpc): string { rpc.resType + " *res" }

  function SubscribeSignature(rpc: CallbackRpc): Line {
    ["int32_t ", HandlerName(rpc), "(const rpc_types_Subscribe_t *req, ", "void *res, void *context) {"]
  }

  function SilentSignature(rpc: CallbackRpc): Line {
    ["int32_t ", HandlerName(rpc), "(", CmdArg(rpc), ", void *res, void *context) {"]
  }

  function AnsweredSignature(rpc: CallbackRpc): Line {
    ["int32_t ", HandlerName(rpc), "(", CmdArg(rpc), ", ", ResArg(rpc), ", void *context) {"]
  }

  function SignatureLine(rpc: CallbackRpc): Line {
    match Spec.KindOf(rpc.typ)
    case Some(Notification) => SubscribeSignature(rpc)
    case Some(RequestOnly) => SilentSignature(rpc)
    case _ => AnsweredSignature(rpc)
  }

  function UnusedReq(): Line { ["    ARG_UNUSED(req);"] }

  function UnusedRes(): Line { ["    ARG_UNUSED(res);"] }

  function UnusedLines(rpc: CallbackRpc): seq<Line> {
    match Spec.KindOf(rpc.typ)
    case Some(Notification) => [UnusedRes()]
    case Some(RequestOnly) => (if rpc.cmdType == "void" then [UnusedReq()] else []) + [UnusedRes()]
    case _ =>
      (if rpc.cmdType == "void" then [UnusedReq()] else []) + (if rpc.resType == "void" then [UnusedRes()] else [])
  }

  function LogLine(rpc: CallbackRpc): Line {
    if Spec.KindOf(rpc.typ) == Some(Spec.Notification)
    then ["    LOG_INF(\"Execute ", "subscription: subscribe_", rpc.name, ", enable=%d\", ", "req ? req->enable : 0);"]
    else ["    LOG_INF(\"Execute ", "RPC: ", rpc.name, "\");"]
  }

  function SubscribeTodo(): Line {
    ["    // [USER TODO]: Implement ", "subscription enable/disable ", "logic based on req->enable"]
  }

  function SubscribeExample(rpc: CallbackRpc): Line {
    ["    // Example: if (req->enable) ", "windrpc_notify_", rpc.name, "(...);"]
  }

  function SilentTodo(): Line { ["    // [USER TODO]: Implement ", "execution logic here"] }

  function AnsweredTodo(): Line {
    ["    // [USER TODO]: Implement ", "execution logic and ", "populate response result ", "(*res) here"]
  }

  function TodoLines(rpc: CallbackRpc): seq<Line> {
    match Spec.KindOf(rpc.typ)
    case Some(Notification) => [SubscribeTodo(), SubscribeExample(rpc)]
    case Some(RequestOnly) => [SilentTodo()]
    case _ => [AnsweredTodo()]
  }

  function HandlerLines(rpc: CallbackRpc): (lines: seq<Line>)
    ensures lines != []
  {
    [["/**"], BriefLine(rpc), [" */"], SignatureLine(rpc)] + UnusedLines(rpc) + [LogLine(rpc)] + TodoLines(rpc)
    + [["    return 0;"], ["}"]]
  }

  // The whole skeleton.

  function HandlerBlocks(rpcs: seq<CallbackRpc>): seq<string> {
    if rpcs == [] then [] else [Block(HandlerLines(rpcs[0]))] + HandlerBlocks(rpcs[1..])
  }

  /** The core service keeps its callbacks elsewhere. */
  function ServiceBlocks(svc: CallbackService): seq<string> {
    if svc.name == "common" then [] else [Block(BannerLines(svc.name))] + HandlerBlocks(svc.rpcs)
  }

  function AllServiceBlocks(services: seq<CallbackService>): seq<string> {
    if services == [] then [] else ServiceBlocks(services[0]) + AllServiceBlocks(services[1..])
  }

  function FixedBlocks(): seq<string> { [Block(HeaderLines()), Block(IncludeLines()), Block(LogLines())] }

  function CallbackSkeleton(services: seq<CallbackService>): string {
    Text(FixedBlocks() + AllServiceBlocks(services))
  }

  lemma {:induction false} TextConcat(a: seq<string>, b: seq<string>)
    ensures Text(a + b) == Text(a) + Text(b)
  {
    if a == [] {
      assert a + b == b;
    } else {
      assert (a + b)[0] == a[0] && (a + b)[1..] == a[1..] + b;
      TextConcat(a[1..], b);
    }
  }

  // The emitting loops.

  method EmitBlock(content: string, lines: seq<Line>) returns (extended: string)
    requires lines != []
    ensures extended == content + (Block(lines) + "\n\n")
  {
    extended := content;
    for i := 0 to |lines|
      invariant extended == content + Broken(lines[..i])
    {
      assert lines[..i + 1] == lines[..i] + [lines[i]];
      BrokenSnoc(lines[..i], lines[i]);
      Assoc(content, Broken(lines[..i]), LineText(lines[i]) + "\n");
      Assoc(extended, LineText(lines[i]), "\n");
      extended := extended + LineText(lines[i]) + "\n";
    }
    assert lines[..|lines|] == lines;
    BrokenIsBlock(lines);
    assert content + Broken(lines) + "\n" == content + (Block(lines) + "\n\n");
    extended := extended + "\n";
  }

  /** Every line with its line break. */
  function Broken(lines: seq<Line>): string {
    if lines == [] then "" else (LineText(lines[0]) + "\n") + Broken(lines[1..])
  }

  lemma {:induction false} BrokenSnoc(lines: seq<Line>, line: Line)
    ensures Broken(lines + [line]) == Broken(lines) + (LineText(line) + "\n")
  {
    hide LineText;
    if lines == [] {
      assert lines + [line] == [line];
    } else {
      assert (lines + [line])[0] == lines[0] && (lines + [line])[1..] == lines[1..] + [line];
      BrokenSnoc(lines[1..], line);
      Assoc(LineText(lines[0]) + "\n", Broken(lines[1..]), LineText(line) + "\n");
    }
  }

  lemma {:induction false} BrokenIsBlock(lines: seq<Line>)
    requires lines != []
    ensures Broken(lines) == Block(lines) + "\n"
  {
    hide LineText;
    if |lines| == 1 {
      assert Broken(lines[1..]) == "" && Texts(lines[1..]) == [];
    } else {
      BrokenIsBlock(lines[1..]);
      var first, rest := LineText(lines[0]), Block(lines[1..]);
      assert Texts(lines)[1..] == Texts(lines[1..]) && |Texts(lines[1..])| > 0;
      assert Block(lines) == first + "\n" + rest;
      assert (first + "\n") + (rest + "\n") == first + "\n" + rest + "\n";
    }
  }

  method EmitService(content: string, service: CallbackService, ghost done: seq<string>) returns (extended: string)
    requires content == Text(done)
    ensures extended == Text(done + ServiceBlocks(service))
  {
    hide Block, HandlerLines, BannerLines, Text;
    if service.name == "common" {
      assert done + [] == done;
      return content;
    }
    extended := EmitBlock(content, BannerLines(service.name));
    ghost var banner := Emitted(extended, content, done, Block(BannerLines(service.name)));
    assert banner + HandlerBlocks(service.rpcs[..0]) == banner;
    for j := 0 to |service.rpcs|
      invariant extended == Text(banner + HandlerBlocks(service.rpcs[..j]))
    {
      hide HandlerBlocks;
      var rpc := service.rpcs[j];
      ghost var before, earlier := extended, HandlerBlocks(service.rpcs[..j]);
      HandlersSnoc(service.rpcs[..j], rpc);
      assert service.rpcs[..j + 1] == service.rpcs[..j] + [rpc];
      extended := EmitBlock(extended, HandlerLines(rpc));
      ghost var _ := Emitted(extended, before, banner + earlier, Block(HandlerLines(rpc)));
      Assoc(banner, earlier, [Block(HandlerLines(rpc))]);
    }
    assert service.rpcs[..|service.rpcs|] == service.rpcs;
    Assoc(done, [Block(BannerLines(service.name))], HandlerBlocks(service.rpcs));
  }

  /** _generate_callbacks_skeleton. */
  method GenerateCallbacksSkeleton(services: seq<CallbackService>) returns (content: string)
    ensures content == CallbackSkeleton(services)
  {
    hide Block, HeaderLines, IncludeLines, LogLines, Text, ServiceBlocks;
    ghost var before := "";
    TextNil();
    content := EmitBlock("", HeaderLines());
    ghost var done := Emitted(content, before, [], Block(HeaderLines()));
    before := content;
    content := EmitBlock(content, IncludeLines());
    done := Emitted(content, before, done, Block(IncludeLines()));
    before := content;
    content := EmitBlock(content, LogLines());
    done := Emitted(content, before, done, Block(LogLines()));
    assert done == FixedBlocks();
    assert FixedBlocks() + AllServiceBlocks(services[..0]) == FixedBlocks();
    for i := 0 to |services|
      invariant content == Text(FixedBlocks() + AllServiceBlocks(services[..i]))
    {
      hide FixedBlocks, AllServiceBlocks;
      ghost var earlier := AllServiceBlocks(services[..i]);
      ServicesSnoc(services[..i], services[i]);
      assert services[..i + 1] == services[..i] + [services[i]];
      Assoc(FixedBlocks(), earlier, ServiceBlocks(services[i]));
      content := EmitService(content, services[i], FixedBlocks() + earlier);
    }
    assert services[..|services|] == services;
  }

  lemma TextNil()
    ensures Text([]) == ""
  {
  }

  /** One more block has been emitted. */
  lemma Emitted(content: string, before: string, blocks: seq<string>, block: string) returns (extended: seq<string>)
    requires before == Text(blocks) && content == before + (block + "\n\n")
    ensures extended == blocks + [block] && content == Text(extended)
  {
    extended := blocks + [block];
    TextConcat(blocks, [block]);
    assert [block][1..] == [] && "\n\n" + "" == "\n\n";
  }

  lemma {:induction false} HandlersSnoc(rpcs: seq<CallbackRpc>, rpc: CallbackRpc)
    ensures HandlerBlocks(rpcs + [rpc]) == HandlerBlocks(rpcs) + [Block(HandlerLines(rpc))]
  {
    hide Block, HandlerLines;
    if rpcs == [] {
      assert rpcs + [rpc] == [rpc];
    } else {
      assert (rpcs + [rpc])[0] == rpcs[0] && (rpcs + [rpc])[1..] == rpcs[1..] + [rpc];
      HandlersSnoc(rpcs[1..], rpc);
    }
  }

  lemma {:induction false} ServicesSnoc(services: seq<CallbackService>, service: CallbackService)
    ensures AllServiceBlocks(services + [service]) == AllServiceBlocks(services) + ServiceBlocks(service)
  {
    hide ServiceBlocks;
    if services == [] {
      assert services + [service] == [service];
      assert ServiceBlocks(service) + [] == ServiceBlocks(service);
    } else {
      assert (services + [service])[0] == services[0] && (services + [service])[1..] == services[1..] + [service];
      ServicesSnoc(services[1..], service);
      Assoc(ServiceBlocks(services[0]), AllServiceBlocks(services[1..]), ServiceBlocks(service));
    }
  }

  lemma {:induction false} ServicesConcat(a: seq<CallbackService>, b: seq<CallbackService>)
    ensures AllServiceBlocks(a + b) == AllServiceBlocks(a) + AllServiceBlocks(b)
  {
    hide ServiceBlocks;
    if a == [] {
      assert a + b == b;
    } else {
      assert (a + b)[0] == a[0] && (a + b)[1..] == a[1..] + b;
      ServicesConcat(a[1..], b);
      Assoc(ServiceBlocks(a[0]), AllServiceBlocks(a[1..]), AllServiceBlocks(b));
    }
  }

  /** The core service leaves no trace: the skeleton is the one of the other services, in their order. */
  lemma CommonLeavesNoTrace(before: seq<CallbackService>, common: CallbackService, after: seq<CallbackService>)
    requires common.name == "common"
    ensures CallbackSkeleton(before + [common] + after) == CallbackSkeleton(before + after)
  {
    hide Text, FixedBlocks, AllServiceBlocks;
    ServicesConcat(before + [common], after);
    ServicesSnoc(before, common);
    ServicesConcat(before, after);
    assert AllServiceBlocks(before) + [] == AllServiceBlocks(before);
  }

  // Every emitted line is a line.

  predicate Clean(s: string) { forall i :: 0 <= i < |s| ==> s[i] != '\n' }

  predicate GoodLine(line: Line) {
    line != [] && line[0] != "" && forall i :: 0 <= i < |line| ==> Clean(line[i])
  }

  predicate CleanRpc(rpc: CallbackRpc) { Clean(rpc.name) && Clean(rpc.cmdType) && Clean(rpc.resType) }

  /** No name and no type contains a line break. */
  predicate CleanServices(services: seq<CallbackService>) {
    forall i :: 0 <= i < |services| ==>
      Clean(services[i].name) && forall j :: 0 <= j < |services[i].rpcs| ==> CleanRpc(services[i].rpcs[j])
  }

  lemma {:induction false} PiecesClean(pieces: seq<string>)
    requires forall i :: 0 <= i < |pieces| ==> Clean(pieces[i])
    ensures Clean(Flatten(pieces))
  {
    if pieces != [] {
      PiecesClean(pieces[1..]);
      assert Clean(pieces[0]);
    }
  }

  lemma GoodLineIsLine(line: Line)
    requires GoodLine(line)
    ensures IsLine(LineText(line))
  {
    PiecesClean(line);
  }

  predicate AllGood(lines: seq<Line>) { forall i :: 0 <= i < |lines| ==> GoodLine(lines[i]) }

  lemma {:induction false} TextsAreLines(lines: seq<Line>)
    requires AllGood(lines)
    ensures |Texts(lines)| == |lines| && forall t :: t in Texts(lines) ==> IsLine(t)
  {
    hide LineText, GoodLine;
    if lines != [] {
      GoodLineIsLine(lines[0]);
      TextsAreLines(lines[1..]);
    }
  }

  lemma BlockIsOneBlock(lines: seq<Line>)
    requires AllGood(lines)
    ensures OneBlock(Block(lines))
  {
    hide OneBlock, IsLine, Texts, Join, AllGood;
    TextsAreLines(lines);
    LinesAreOneBlock(Texts(lines));
  }

  lemma {:induction false} RepeatClean(c: char, n: nat)
    requires c != '\n'
    ensures Clean(Repeat(c, n))
  {
    if n > 0 {
      RepeatClean(c, n - 1);
    }
  }

  lemma HeaderGood()
    ensures AllGood(HeaderLines())
  {
    hide FileLine, SkeletonLine, NoteLine, GoodLine;
    FrameLinesGood();
    FileGood();
    SkeletonGood();
    NoteGood();
  }

  lemma FileGood()
    ensures GoodLine(FileLine())
  {
  }

  lemma SkeletonGood()
    ensures GoodLine(SkeletonLine())
  {
  }

  lemma NoteGood()
    ensures GoodLine(NoteLine())
  {
  }

  lemma IncludesGood()
    ensures AllGood(IncludeLines())
  {
    hide ZephyrLines;
    ZephyrGood();
  }

  lemma ZephyrGood()
    ensures AllGood(ZephyrLines())
  {
  }

  lemma LogGood()
    ensures AllGood(LogLines())
  {
  }

  lemma BannerGood(svc: string)
    requires Clean(svc)
    ensures AllGood(BannerLines(svc))
  {
    hide Repeat;
    RepeatClean('=', 74);
    RepeatClean(' ', 28);
    RepeatClean(' ', 26);
  }

  lemma BriefGood(rpc: CallbackRpc)
    requires CleanRpc(rpc)
    ensures GoodLine(BriefLine(rpc))
  {
    hide Spec.KindOf;
  }

  lemma NameClean(rpc: CallbackRpc)
    requires CleanRpc(rpc)
    ensures Clean(HandlerName(rpc)) && Clean(CmdArg(rpc)) && Clean(ResArg(rpc))
  {
    hide Spec.KindOf;
  }

  lemma SignatureGood(rpc: CallbackRpc)
    requires CleanRpc(rpc)
    ensures GoodLine(SignatureLine(rpc))
  {
    hide Spec.KindOf, GoodLine, SubscribeSignature, SilentSignature, AnsweredSignature;
    SubscribeSignatureGood(rpc);
    SilentSignatureGood(rpc);
    AnsweredSignatureGood(rpc);
  }

  lemma SubscribeSignatureGood(rpc: CallbackRpc)
    requires CleanRpc(rpc)
    ensures GoodLine(SubscribeSignature(rpc))
  {
    hide Spec.KindOf, HandlerName;
    NameClean(rpc);
  }

  lemma SilentSignatureGood(rpc: CallbackRpc)
    requires CleanRpc(rpc)
    ensures GoodLine(SilentSignature(rpc))
  {
    hide Spec.KindOf, HandlerName, CmdArg;
    NameClean(rpc);
  }

  lemma AnsweredSignatureGood(rpc: CallbackRpc)
    requires CleanRpc(rpc)
    ensures GoodLine(AnsweredSignature(rpc))
  {
    hide Spec.KindOf, HandlerName, CmdArg, ResArg;
    NameClean(rpc);
  }

  lemma UnusedGood(rpc: CallbackRpc)
    ensures AllGood(UnusedLines(rpc))
  {
    hide Spec.KindOf, GoodLine, UnusedReq, UnusedRes;
    UnusedArgsGood();
  }

  lemma UnusedArgsGood()
    ensures GoodLine(UnusedReq()) && GoodLine(UnusedRes())
  {
  }

  lemma LogLineGood(rpc: CallbackRpc)
    requires CleanRpc(rpc)
    ensures GoodLine(LogLine(rpc))
  {
    hide Spec.KindOf;
  }

  lemma TodoGood(rpc: CallbackRpc)
    requires CleanRpc(rpc)
    ensures AllGood(TodoLines(rpc))
  {
    hide Spec.KindOf, GoodLine, SubscribeTodo, SubscribeExample, SilentTodo, AnsweredTodo;
    SubscribeTodoGood();
    SubscribeExampleGood(rpc);
    SilentTodoGood();
    AnsweredTodoGood();
  }

  lemma SubscribeTodoGood()
    ensures GoodLine(SubscribeTodo())
  {
  }

  lemma SubscribeExampleGood(rpc: CallbackRpc)
    requires Clean(rpc.name)
    ensures GoodLine(SubscribeExample(rpc))
  {
  }

  lemma SilentTodoGood()
    ensures GoodLine(SilentTodo())
  {
  }

  lemma AnsweredTodoGood()
    ensures GoodLine(AnsweredTodo())
  {
  }

  lemma FrameLinesGood()
    ensures GoodLine(["/**"]) && GoodLine([" */"]) && GoodLine(["    return 0;"]) && GoodLine(["}"])
  {
  }

  lemma HandlerGood(rpc: CallbackRpc)
    requires CleanRpc(rpc)
    ensures AllGood(HandlerLines(rpc))
  {
    hide GoodLine, BriefLine, SignatureLine, UnusedLines, LogLine, TodoLines;
    FrameLinesGood();
    BriefGood(rpc);
    SignatureGood(rpc);
    UnusedGood(rpc);
    LogLineGood(rpc);
    TodoGood(rpc);
  }

  // No block of the skeleton is ever considered for merging.

  lemma {:induction false} LineEnds(line: Line)
    requires line != [] && line[0] != "" && line[|line| - 1] != ""
    ensures line[0] <= LineText(line)
    ensures LineText(line) != "" && LineText(line)[|LineText(line)| - 1] == line[|line| - 1][|line[|line| - 1]| - 1]
    decreases |line|
  {
    if |line| == 1 {
      assert line[1..] == [];
    } else {
      TailEnds(line[1..]);
    }
  }

  lemma {:induction false} TailEnds(pieces: seq<string>)
    requires pieces != [] && pieces[|pieces| - 1] != ""
    ensures Flatten(pieces) != ""
    ensures Flatten(pieces)[|Flatten(pieces)| - 1] == pieces[|pieces| - 1][|pieces[|pieces| - 1]| - 1]
  {
    if |pieces| == 1 {
      assert pieces[1..] == [];
    } else {
      TailEnds(pieces[1..]);
    }
  }

  lemma BlockStarts(lines: seq<Line>, prefix: string)
    requires lines != [] && lines[0] != [] && prefix <= lines[0][0]
    ensures prefix <= Block(lines)
  {
    var first := lines[0];
    assert first[0] <= LineText(first);
    assert LineText(first) <= Block(lines);
  }

  /** A single block that merging passes over. */
  predicate PassedOver(b: string) { OneBlock(b) && (DocCommented(b) || CommentOnly(b)) }

  lemma HandlerPassedOver(rpc: CallbackRpc)
    requires CleanRpc(rpc)
    ensures PassedOver(Block(HandlerLines(rpc)))
  {
    hide OneBlock, CommentOnly, Block, AllGood;
    HandlerGood(rpc);
    BlockIsOneBlock(HandlerLines(rpc));
    BlockStarts(HandlerLines(rpc), "/**");
  }

  lemma FixedPassedOver()
    ensures PassedOver(Block(HeaderLines())) && PassedOver(Block(IncludeLines())) && PassedOver(Block(LogLines()))
  {
    hide OneBlock, CommentOnly, Block, AllGood;
    HeaderGood();
    IncludesGood();
    LogGood();
    BlockIsOneBlock(HeaderLines());
    BlockIsOneBlock(IncludeLines());
    BlockIsOneBlock(LogLines());
    BlockStarts(HeaderLines(), "/**");
    BlockStarts(IncludeLines(), "#include");
    BlockStarts(LogLines(), "LOG_MODULE_REGISTER");
  }

  lemma CommentLineOf(t: string)
    requires "/*" <= t && !IsSpace(t[|t| - 1])
    ensures CommentLine(t) && Strip(t) == t
  {
    StripNothing(t);
  }

  /** The three lines of a banner are comments. */
  lemma BannerPassedOver(svc: string)
    requires Clean(svc)
    ensures PassedOver(Block(BannerLines(svc)))
  {
    hide OneBlock, Repeat, CommentLine, Strip, Split, AllGood, LineText, Join, Clean;
    var lines := BannerLines(svc);
    BannerGood(svc);
    BlockIsOneBlock(lines);
    TextsAreLines(lines);
    var texts := Texts(lines);
    BannerTexts(svc);
    SplitJoin(texts);
    forall t | t in texts
      ensures CommentLine(t)
    {
      CommentLineOf(t);
    }
    JoinEnds(texts);
    CommentLineOf(Block(lines));
  }

  lemma BannerTexts(svc: string)
    ensures var texts := Texts(BannerLines(svc));
            |texts| == 3 && forall t :: t in texts ==> "/*" <= t && t[|t| - 1] == '/'
  {
    hide Repeat, LineText;
    var lines := BannerLines(svc);
    LineEnds(lines[0]);
    LineEnds(lines[1]);
    var tail := lines[1..];
    assert tail[1..] == [lines[2]] && [lines[2]][1..] == [];
    assert Texts([lines[2]]) == [LineText(lines[2])] && Texts(tail) == [LineText(lines[1])] + Texts(tail[1..]);
    assert Texts(lines) == [LineText(lines[0]), LineText(lines[1]), LineText(lines[2])];
  }

  lemma {:induction false} JoinEnds(texts: seq<string>)
    requires texts != [] && forall t :: t in texts ==> "/*" <= t && t[|t| - 1] == '/'
    ensures var s := Join("\n", texts);
            "/*" <= s && s[|s| - 1] == '/'
  {
    assert texts[0] in texts;
    if |texts| > 1 {
      JoinEnds(texts[1..]);
      assert texts[0] <= Join("\n", texts);
    }
  }

  lemma {:induction false} HandlersPassedOver(rpcs: seq<CallbackRpc>)
    requires forall j :: 0 <= j < |rpcs| ==> CleanRpc(rpcs[j])
    ensures forall b :: b in HandlerBlocks(rpcs) ==> PassedOver(b)
  {
    hide PassedOver, Block, HandlerLines, CleanRpc;
    if rpcs != [] {
      HandlerPassedOver(rpcs[0]);
      HandlersPassedOver(rpcs[1..]);
    }
  }

  lemma {:induction false} ServicesPassedOver(services: seq<CallbackService>)
    requires CleanServices(services)
    ensures forall b :: b in AllServiceBlocks(services) ==> PassedOver(b)
  {
    hide PassedOver, Block, BannerLines, HandlerBlocks, CleanRpc, Clean;
    if services != [] {
      var service := services[0];
      BannerPassedOver(service.name);
      HandlersPassedOver(service.rpcs);
      ServicesPassedOver(services[1..]);
    }
  }

  /** Merging the generated callback skeleton never changes an existing file, whatever it holds. */
  lemma CallbacksNeverMerged(existing: string, services: seq<CallbackService>)
    requires CleanServices(services)
    ensures Merged(Some(existing), CallbackSkeleton(services)) == existing
  {
    hide PassedOver, Block, Merged, Text, CleanServices, AllServiceBlocks;
    FixedPassedOver();
    ServicesPassedOver(services);
    var blocks := FixedBlocks() + AllServiceBlocks(services);
    AllConsidered(blocks);
    CommentedSkeletonAddsNothing(existing, blocks);
  }

  lemma AllConsidered(blocks: seq<string>)
    requires forall b :: b in blocks ==> PassedOver(b)
    ensures forall b :: b in blocks ==> OneBlock(b) && (DocCommented(b) || CommentOnly(b))
  {
    hide OneBlock, DocCommented, CommentOnly;
    assert forall b :: PassedOver(b) ==> OneBlock(b) && (DocCommented(b) || CommentOnly(b));
  }

  // What a handler block says, line by line.

  /** The signature of each kind of handler: its name, its request, its response, its context. */
  function Signature(rpc: CallbackRpc): string {
    if Spec.KindOf(rpc.typ) == Some(Spec.Notification) then
      "int32_t " + ("windrpc_on_subscribe_" + rpc.name) + "(const rpc_types_Subscribe_t *req, "
      + "void *res, void *context) {"
    else if Spec.KindOf(rpc.typ) == Some(Spec.RequestOnly) then
      "int32_t " + ("windrpc_on_" + rpc.name) + "(" + ("const " + rpc.cmdType + " *req")
      + ", void *res, void *context) {"
    else
      "int32_t " + ("windrpc_on_" + rpc.name) + "(" + ("const " + rpc.cmdType + " *req") + ", "
      + (rpc.resType + " *res") + ", void *context) {"
  }

  lemma FlattenFour(a: string, b: string, c: string, d: string)
    ensures Flatten([a, b, c, d]) == a + b + c + d
  {
    assert [a, b, c, d][1..] == [b, c, d] && [b, c, d][1..] == [c, d] && [c, d][1..] == [d] && [d][1..] == [];
    assert Flatten([d]) == d;
    assert Flatten([c, d]) == c + d;
    assert Flatten([b, c, d]) == b + (c + d);
    assert a + (b + (c + d)) == a + b + c + d;
  }

  lemma FlattenFive(a: string, b: string, c: string, d: string, e: string)
    ensures Flatten([a, b, c, d, e]) == a + b + c + d + e
  {
    assert [a, b, c, d, e][1..] == [b, c, d, e];
    FlattenFour(b, c, d, e);
    assert a + (b + c + d + e) == a + b + c + d + e;
  }

  lemma FlattenSeven(a: string, b: string, c: string, d: string, e: string, f: string, g: string)
    ensures Flatten([a, b, c, d, e, f, g]) == a + b + c + d + e + f + g
  {
    assert [a, b, c, d, e, f, g][1..] == [b, c, d, e, f, g] && [b, c, d, e, f, g][1..] == [c, d, e, f, g];
    FlattenFive(c, d, e, f, g);
    assert a + (b + (c + d + e + f + g)) == a + b + c + d + e + f + g;
  }

  lemma SignatureIs(rpc: CallbackRpc)
    ensures LineText(SignatureLine(rpc)) == Signature(rpc)
  {
    hide Spec.KindOf, Flatten;
    var name := HandlerName(rpc);
    FlattenFour("int32_t ", name, "(const rpc_types_Subscribe_t *req, ", "void *res, void *context) {");
    FlattenFive("int32_t ", name, "(", CmdArg(rpc), ", void *res, void *context) {");
    FlattenSeven("int32_t ", name, "(", CmdArg(rpc), ", ", ResArg(rpc), ", void *context) {");
  }

  lemma {:induction false} InnerLine(texts: seq<string>, i: nat)
    requires 0 < i < |texts| - 1
    ensures Occurs("\n" + texts[i] + "\n", Join("\n", texts))
    decreases i
  {
    hide Occurs;
    var rest := Join("\n", texts[1..]);
    if i == 1 {
      var tail := Join("\n", texts[2..]);
      assert texts[1..][1..] == texts[2..];
      OccursIn(texts[0], "\n" + texts[1] + "\n", tail);
      assert texts[0] + ("\n" + texts[1] + "\n") + tail == texts[0] + "\n" + (texts[1] + "\n" + tail);
    } else {
      InnerLine(texts[1..], i - 1);
      OccursIn(texts[0] + "\n", rest, "");
      assert texts[0] + "\n" + rest + "" == Join("\n", texts);
      OccursTrans("\n" + texts[i] + "\n", rest, Join("\n", texts));
    }
  }

  lemma {:induction false} TextAt(lines: seq<Line>, i: nat)
    requires i < |lines|
    ensures |Texts(lines)| == |lines| && Texts(lines)[i] == LineText(lines[i])
  {
    hide LineText;
    if i > 0 {
      TextAt(lines[1..], i - 1);
    } else if |lines| > 1 {
      TextAt(lines[1..], 0);
    }
  }

  /** The signature stands on a line of its own. */
  lemma SignatureInBlock(rpc: CallbackRpc)
    ensures Occurs("\n" + Signature(rpc) + "\n", Block(HandlerLines(rpc)))
  {
    hide Occurs, LineText, Join, Texts, Signature, BriefLine, SignatureLine, UnusedLines, LogLine, TodoLines;
    var lines := HandlerLines(rpc);
    assert lines[3] == SignatureLine(rpc) && |lines| > 4;
    TextAt(lines, 3);
    SignatureIs(rpc);
    InnerLine(Texts(lines), 3);
  }

  /** The parameters a handler has no use for: requests without a type, and responses nobody is sent. */
  function Marks(rpc: CallbackRpc): seq<string> {
    var kind := Spec.KindOf(rpc.typ);
    (if kind != Some(Spec.Notification) && rpc.cmdType == "void" then ["    ARG_UNUSED(req);"] else [])
    + if kind == Some(Spec.Notification) || kind == Some(Spec.RequestOnly) || rpc.resType == "void"
      then ["    ARG_UNUSED(res);"] else []
  }

  lemma {:induction false} TextsConcat(a: seq<Line>, b: seq<Line>)
    ensures Texts(a + b) == Texts(a) + Texts(b)
  {
    hide LineText;
    if a == [] {
      assert a + b == b;
    } else {
      assert (a + b)[0] == a[0] && (a + b)[1..] == a[1..] + b;
      TextsConcat(a[1..], b);
    }
  }

  lemma OneText(t: string)
    ensures LineText([t]) == t && Texts([[t]]) == [t]
  {
    assert Flatten([t]) == t + "" == t;
    TextAt([[t]], 0);
  }

  lemma UnusedIs(rpc: CallbackRpc)
    ensures Texts(UnusedLines(rpc)) == Marks(rpc)
  {
    hide Spec.KindOf, LineText, UnusedReq, UnusedRes;
    UnusedTexts();
    TextsConcat([UnusedReq()], [UnusedRes()]);
    assert [UnusedReq()] + [] == [UnusedReq()] && [] + [UnusedRes()] == [UnusedRes()];
  }

  lemma UnusedTexts()
    ensures Texts([UnusedReq()]) == ["    ARG_UNUSED(req);"] && Texts([UnusedRes()]) == ["    ARG_UNUSED(res);"]
  {
    OneText("    ARG_UNUSED(req);");
    OneText("    ARG_UNUSED(res);");
  }

  /** A comment, the signature, the marks, some lines of text, and a body that returns 0. */
  lemma HandlerShape(rpc: CallbackRpc)
    ensures exists brief, notes ::
              Texts(HandlerLines(rpc))
              == ["/**"] + [brief] + [" */"] + [Signature(rpc)] + Marks(rpc) + notes + ["    return 0;"] + ["}"]
  {
    hide LineText, Signature, BriefLine, SignatureLine, UnusedLines, LogLine, TodoLines, Marks;
    var notes := [LogLine(rpc)] + TodoLines(rpc);
    var head := [["/**"], BriefLine(rpc), [" */"], SignatureLine(rpc)];
    var tail := [["    return 0;"], ["}"]];
    assert HandlerLines(rpc) == head + UnusedLines(rpc) + notes + tail;
    TextsConcat(head + UnusedLines(rpc) + notes, tail);
    TextsConcat(head + UnusedLines(rpc), notes);
    TextsConcat(head, UnusedLines(rpc));
    UnusedIs(rpc);
    SignatureIs(rpc);
    OneText("/**");
    OneText(" */");
    OneText("    return 0;");
    OneText("}");
    FourTexts(["/**"], BriefLine(rpc), [" */"], SignatureLine(rpc));
    TextsConcat([["    return 0;"]], [["}"]]);
    assert tail == [["    return 0;"]] + [["}"]];
    var brief, noted := LineText(BriefLine(rpc)), Texts(notes);
    assert Texts(HandlerLines(rpc))
        == ["/**"] + [brief] + [" */"] + [Signature(rpc)] + Marks(rpc) + noted + ["    return 0;"] + ["}"];
  }

  lemma FourTexts(a: Line, b: Line, c: Line, d: Line)
    ensures Texts([a, b, c, d]) == [LineText(a)] + [LineText(b)] + [LineText(c)] + [LineText(d)]
  {
    hide LineText;
    TextAt([a, b, c, d], 0);
    TextAt([a, b, c, d], 1);
    TextAt([a, b, c, d], 2);
    TextAt([a, b, c, d], 3);
  }

  /** For every rpc of every service but the core one, the skeleton holds the signature of its kind on its own line. */
  lemma SkeletonSigns(services: seq<CallbackService>, i: nat, j: nat)
    requires i < |services| && services[i].name != "common" && j < |services[i].rpcs|
    ensures Occurs("\n" + Signature(services[i].rpcs[j]) + "\n", CallbackSkeleton(services))
  {
    hide Occurs, Block, HandlerLines, BannerLines, Signature, Text, FixedBlocks, AllServiceBlocks;
    var rpc := services[i].rpcs[j];
    var b := Block(HandlerLines(rpc));
    HandlerListed(services[i].rpcs, j);
    ServiceListed(services, i, b);
    BlockInText(FixedBlocks() + AllServiceBlocks(services), b);
    SignatureInBlock(rpc);
    OccursTrans("\n" + Signature(rpc) + "\n", b, CallbackSkeleton(services));
  }

  // So a handler that the file lacks stays missing.

  lemma {:induction false} PieceOccurs(pieces: seq<string>, p: string)
    requires p in pieces
    ensures Occurs(p, Flatten(pieces))
  {
    hide Occurs;
    if p == pieces[0] {
      OccursIn("", p, Flatten(pieces[1..]));
      assert "" + p == p;
    } else {
      PieceOccurs(pieces[1..], p);
      OccursIn(pieces[0], Flatten(pieces[1..]), "");
      assert pieces[0] + Flatten(pieces[1..]) + "" == Flatten(pieces);
      OccursTrans(p, Flatten(pieces[1..]), Flatten(pieces));
    }
  }

  lemma {:induction false} TextOfLine(lines: seq<Line>, i: nat)
    requires i < |lines|
    ensures LineText(lines[i]) in Texts(lines)
  {
    if i > 0 {
      TextOfLine(lines[1..], i - 1);
    }
  }

  lemma {:induction false} BlockInText(blocks: seq<string>, b: string)
    requires b in blocks
    ensures Occurs(b, Text(blocks))
  {
    hide Occurs;
    if b == blocks[0] {
      OccursIn("", b, "\n\n" + Text(blocks[1..]));
      assert "" + b == b;
    } else {
      BlockInText(blocks[1..], b);
      OccursIn(blocks[0] + "\n\n", Text(blocks[1..]), "");
      assert blocks[0] + "\n\n" + Text(blocks[1..]) + "" == Text(blocks);
      OccursTrans(b, Text(blocks[1..]), Text(blocks));
    }
  }

  lemma NameInBlock(rpc: CallbackRpc)
    ensures Occurs(HandlerName(rpc), Block(HandlerLines(rpc)))
  {
    hide Occurs, Flatten, HandlerName, CmdArg, ResArg, Join, Texts;
    var lines := HandlerLines(rpc);
    var line := SignatureLine(rpc);
    assert line[1] == HandlerName(rpc);
    PieceOccurs(line, HandlerName(rpc));
    assert lines[3] == line;
    TextOfLine(lines, 3);
    JoinPieceOccurs("\n", Texts(lines), LineText(line));
    OccursTrans(HandlerName(rpc), LineText(line), Block(lines));
  }

  lemma {:induction false} HandlerListed(rpcs: seq<CallbackRpc>, j: nat)
    requires j < |rpcs|
    ensures Block(HandlerLines(rpcs[j])) in HandlerBlocks(rpcs)
  {
    hide Block, HandlerLines;
    if j > 0 {
      HandlerListed(rpcs[1..], j - 1);
    }
  }

  lemma {:induction false} ServiceListed(services: seq<CallbackService>, i: nat, b: string)
    requires i < |services| && b in ServiceBlocks(services[i])
    ensures b in AllServiceBlocks(services)
  {
    hide ServiceBlocks;
    if i > 0 {
      ServiceListed(services[1..], i - 1, b);
    }
  }

  /** The skeleton defines the handler of every rpc of every service but the core one. */
  lemma SkeletonDefines(services: seq<CallbackService>, i: nat, j: nat)
    requires i < |services| && services[i].name != "common" && j < |services[i].rpcs|
    ensures Occurs(HandlerName(services[i].rpcs[j]), CallbackSkeleton(services))
  {
    hide Occurs, Block, HandlerLines, BannerLines, HandlerName, Text, FixedBlocks, AllServiceBlocks;
    var rpc := services[i].rpcs[j];
    var b := Block(HandlerLines(rpc));
    HandlerListed(services[i].rpcs, j);
    ServiceListed(services, i, b);
    BlockInText(FixedBlocks() + AllServiceBlocks(services), b);
    NameInBlock(rpc);
    OccursTrans(HandlerName(rpc), b, CallbackSkeleton(services));
  }

  /** A handler that the existing file lacks is in the skeleton, but not in the merged file. */
  lemma MissingHandlerNotMerged(existing: string, services: seq<CallbackService>, i: nat, j: nat)
    requires CleanServices(services)
    requires i < |services| && services[i].name != "common" && j < |services[i].rpcs|
    requires !Occurs(HandlerName(services[i].rpcs[j]), existing)
    ensures Occurs(HandlerName(services[i].rpcs[j]), CallbackSkeleton(services))
    ensures !Occurs(HandlerName(services[i].rpcs[j]), Merged(Some(existing), CallbackSkeleton(services)))
  {
    hide Occurs, HandlerName, CallbackSkeleton, Merged, CleanServices;
    SkeletonDefines(services, i, j);
    CallbacksNeverMerged(existing, services);
  }

  const TOGGLE := CallbackRpc("toggle", "REQUEST_RESPONSE", "void", "void")
  const LED := CallbackService("led", [TOGGLE])

  /** For instance the handler of rpc `toggle` of a new service `led`, merged into a file with one empty line. */
  lemma MissingHandlerExists() returns (existing: string, services: seq<CallbackService>)
    ensures services == [LED]
    ensures Occurs(HandlerName(TOGGLE), CallbackSkeleton(services))
    ensures !Occurs(HandlerName(TOGGLE), Merged(Some(existing), CallbackSkeleton(services)))
    ensures CleanServices(services)
  {
    hide Occurs, CallbackSkeleton, Merged, HandlerName;
    existing, services := "\n", [LED];
    LedClean();
    NotInShorter(HandlerName(TOGGLE), existing);
    assert services[0].rpcs[0] == TOGGLE;
    MissingHandlerNotMerged(existing, services, 0, 0);
  }

  lemma LedClean()
    ensures CleanServices([LED]) && LED.name != "common" && |HandlerName(TOGGLE)| > 1
  {
    hide Spec.KindOf;
    assert Clean("led") && Clean("toggle") && Clean("void");
    assert CleanRpc(TOGGLE);
    assert "led"[0] != "common"[0];
  }

  lemma NotInShorter(k: string, s: string)
    requires |s| < |k|
    ensures !Occurs(k, s)
  {
  }
}
