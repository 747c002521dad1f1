/** The Python and the JavaScript dispatcher on the same frame, although they test in a different order. */
module Agreement {
  import opened Bytes
  import opened Wire
  import Py = PyClient
  import Js = JsClient

  predicate SameOutcome(fut: Py.Future, status: Js.Status) {
    match fut
    case Unsent => false
    case Waiting => status.Open?
    case Result(frame) => status == Js.Resolved(frame)
    case SystemError => status == Js.Rejected(Js.StatusError)
    case Cancelled => status == Js.Rejected(Js.Timeout)
  }

  /** Both clients have the same requests outstanding and have settled the others the same way. */
  predicate Same(py: Py.State, js: Js.State) {
    && py.pending == js.pending
    && |py.requests| == |js.promises|
    && forall k :: 0 <= k < |py.requests| ==> SameOutcome(py.requests[k].fut, js.promises[k].status)
  }

  /** They part exactly on an event frame that carries the identifier of a pending request. */
  lemma DispatchersAgree(py: Py.State, js: Js.State, frame: Frame, listening: bool)
    requires Py.Valid(py) && Js.Valid(js) && Same(py, js)
    ensures Same(Py.Dispatched(py, frame, listening), Js.Dispatched(js, frame, listening))
       <==> !(Py.Classify(frame.rpcId).Notification? && frame.seqId in py.pending)
  {
    var q := frame.seqId;
    if q in py.pending {
      assert Py.PendingOk(py, q) && Js.PendingOk(js, q);
      if Py.Classify(frame.rpcId).Notification? {
        assert q !in Js.Dispatched(js, frame, listening).pending;
        assert q in Py.Dispatched(py, frame, listening).pending;
      }
    }
  }

  /** No Python identifier is ever zero, so on server events, which carry zero, two clients in step stay in step. */
  lemma EventsAgree(py: Py.State, js: Js.State, frame: Frame, listening: bool)
    requires Py.Valid(py) && Js.Valid(js) && Same(py, js)
    requires frame.seqId == 0
    ensures 0 !in py.pending && Same(Py.Dispatched(py, frame, listening), Js.Dispatched(js, frame, listening))
  {
    if 0 in py.pending {
      assert Py.PendingOk(py, 0);
      Py.SeqRepeats(py.pending[0], py.pending[0]);
    }
    DispatchersAgree(py, js, frame, listening);
  }

  /** The callbacks differ: Python passes on events only, JavaScript every frame that matches no request. */
  lemma CallbacksCompared(py: Py.State, js: Js.State, frame: Frame)
    requires Py.Valid(py) && Js.Valid(js)
    ensures Py.Dispatched(py, frame, true).notified
         == py.notified + (if Py.Classify(frame.rpcId).Notification? then [frame] else [])
    ensures Js.Dispatched(js, frame, true).notified
         == js.notified + (if frame.seqId !in js.pending then [frame] else [])
  {
    assert py.notified + [] == py.notified && js.notified + [] == js.notified;
  }
}
