/** The reader loop as a function of what each read and flush returns: the
    per-record step and the fold of the loop over such a script. */
module Reader {
  import opened Outcomes
  import opened Events
  import opened KeyState
  import opened Mailbox

  /** What the reader does to shared state, in order: a store write, or a
      notification attempt and its outcome. */
  datatype Action = SetKey(code: KeyCode, down: bool) | Notify(code: KeyCode, outcome: SendOutcome)

  /** The codes carried by the notification attempts of a trace, in order. */
  function Notified(trace: seq<Action>): seq<KeyCode>
    decreases |trace|
  {
    if trace == [] then []
    else (if trace[0].Notify? then [trace[0].code] else []) + Notified(trace[1..])
  }

  /** Every notification attempt comes right after the store write of the same key. */
  predicate WriteBeforeNotify(trace: seq<Action>) {
    forall i :: 0 <= i < |trace| && trace[i].Notify? ==>
      0 < i && trace[i - 1].SetKey? && trace[i - 1].code == trace[i].code
  }

  /** The codes of the store-writing records of a sequence, in order. */
  function WrittenCodes(evs: seq<InputEvent>): seq<KeyCode> {
    var w := Writes(evs);
    seq(|w|, i requires 0 <= i < |w| => w[i].code)
  }

  lemma WrittenCodesCons(e: InputEvent, rest: seq<InputEvent>)
    ensures WrittenCodes([e] + rest) == (if ChangesState(e) then [e.code] else []) + WrittenCodes(rest)
  {
    assert ([e] + rest)[0] == e && ([e] + rest)[1..] == rest;
    var h: seq<InputEvent> := if ChangesState(e) then [e] else [];
    var w := Writes(rest);
    assert Writes([e] + rest) == h + w;
    var lhs := WrittenCodes([e] + rest);
    var rhs := (if ChangesState(e) then [e.code] else []) + WrittenCodes(rest);
    assert |lhs| == |rhs| == |h| + |w|;
    forall i | 0 <= i < |lhs|
      ensures lhs[i] == rhs[i]
    {
      assert lhs[i] == (h + w)[i].code;
      if i >= |h| {
        assert (h + w)[i] == w[i - |h|];
      }
    }
  }

  datatype StepResult = StepResult(keys: KeyMap, chan: Channel, actions: seq<Action>)

  /** One decoded record: a store-writing record updates the store and then
      makes one notification attempt carrying its code; any other record
      leaves everything as it was. */
  function Step(keys: KeyMap, ch: Channel, e: InputEvent, consumerWaiting: bool): (r: StepResult)
    requires Mailbox.Valid(ch) && !ch.closed && (consumerWaiting ==> ch.buffer == [])
    ensures r.keys == Apply(keys, e)
    ensures Mailbox.Valid(r.chan) && !r.chan.closed && r.chan.capacity == ch.capacity
    ensures ch.capacity == 0 ==> r.chan == ch
    ensures Notified(r.actions) == if ChangesState(e) then [e.code] else []
    ensures WriteBeforeNotify(r.actions)
    ensures forall a :: a in r.actions && a.Notify? ==> a.outcome == Post(ch, e.code, consumerWaiting).outcome
    ensures !ChangesState(e) ==> r.chan == ch && r.actions == []
    ensures ChangesState(e) ==>
      |r.actions| == 2 && r.actions[0] == SetKey(e.code, e.value == Press) && r.actions[1].Notify?
  {
    if e.kind == EventKey && e.value != Repeat then
      var down := e.value == Press;
      var p := Post(ch, e.code, consumerWaiting);
      var actions := [SetKey(e.code, down), Notify(e.code, p.outcome)];
      assert Notified(actions) == [] + Notified(actions[1..]);
      assert Notified(actions[1..]) == [e.code] + Notified(actions[2..]);
      StepResult(keys[e.code := down], p.chan, actions)
    else
      StepResult(keys, ch, [])
  }

  /** What one pass of the loop body sees: the read's outcome, whether a
      consumer is blocked receiving when the notification is attempted, and
      what the flush returns. */
  datatype Iteration = Iteration(read: ReadOutcome, consumerWaiting: bool, flush: Option<Error>)

  /** The error, if any, that one pass of the loop body ends with: the read's,
      or else the flush's. */
  function IterationError(it: Iteration): Option<Error> {
    match ReadEvent(it.read)
    case Failure(e) => Some(e)
    case Success(_) => it.flush
  }

  datatype PassResult = PassResult(keys: KeyMap, actions: seq<Action>, err: Option<Error>)

  /** One pass of the loop body: a failed read ends the pass at once, with no
      decoding and no flush; otherwise the record is stepped and the pass ends
      with what the flush returns. */
  function Pass(keys: KeyMap, ch: Channel, it: Iteration): (r: PassResult)
    requires ch.capacity == 0 && Mailbox.Valid(ch) && !ch.closed
    ensures ReadEvent(it.read).Failure? ==>
      r.keys == keys && r.actions == [] && r.err == Some(ReadEvent(it.read).error)
    ensures ReadEvent(it.read).Success? ==>
      r.keys == Apply(keys, ReadEvent(it.read).value) && r.err == it.flush
  {
    match ReadEvent(it.read)
    case Failure(_) => PassResult(keys, [], IterationError(it))
    case Success(ev) =>
      var s := Step(keys, ch, ev, it.consumerWaiting);
      PassResult(s.keys, s.actions, IterationError(it))
  }

  datatype LoopResult = LoopResult(keys: KeyMap, trace: seq<Action>, err: Option<Error>, passes: nat)

  /** The loop run while `running` stays true, on the unbuffered channel: pass
      after pass until one ends with an error or the script runs out (the
      reader is then blocked in its next read). */
  function Loop(keys: KeyMap, ch: Channel, script: seq<Iteration>): (r: LoopResult)
    requires ch.capacity == 0 && Mailbox.Valid(ch) && !ch.closed
    ensures r.passes <= |script|
    ensures r.err.None? <==>
      r.passes == |script| && forall j :: 0 <= j < |script| ==> IterationError(script[j]).None?
    ensures r.err.Some? ==>
      && 1 <= r.passes
      && r.err == IterationError(script[r.passes - 1])
      && forall j :: 0 <= j < r.passes - 1 ==> IterationError(script[j]).None?
    decreases |script|
  {
    if script == [] then LoopResult(keys, [], None, 0)
    else
      var p := Pass(keys, ch, script[0]);
      if p.err.Some? then LoopResult(p.keys, p.actions, p.err, 1)
      else
        var rest := Loop(p.keys, ch, script[1..]);
        assert forall j :: 1 <= j < |script| ==> script[j] == script[1..][j - 1];
        LoopResult(rest.keys, p.actions + rest.trace, rest.err, 1 + rest.passes)
  }

  /** Reference: the records the loop decodes before it stops: every record
      read successfully, up to and including the one whose flush fails. */
  function Records(script: seq<Iteration>): seq<InputEvent>
    decreases |script|
  {
    if script == [] then []
    else
      match ReadEvent(script[0].read)
      case Failure(_) => []
      case Success(ev) => [ev] + (if script[0].flush.Some? then [] else Records(script[1..]))
  }

  lemma {:induction false} NotifiedAppend(a: seq<Action>, b: seq<Action>)
    ensures Notified(a + b) == Notified(a) + Notified(b)
    decreases |a|
  {
    if a != [] {
      assert (a + b)[1..] == a[1..] + b;
      NotifiedAppend(a[1..], b);
    } else {
      assert a + b == b;
    }
  }

  lemma WriteBeforeNotifyAppend(a: seq<Action>, b: seq<Action>)
    requires WriteBeforeNotify(a) && WriteBeforeNotify(b)
    ensures WriteBeforeNotify(a + b)
  {
  }

  /** The store the loop leaves is the store after the records it decoded. */
  lemma {:induction false} LoopKeys(keys: KeyMap, ch: Channel, script: seq<Iteration>)
    requires ch.capacity == 0 && Mailbox.Valid(ch) && !ch.closed
    ensures Loop(keys, ch, script).keys == ApplyAll(keys, Records(script))
    decreases |script|
  {
    if script != [] {
      match ReadEvent(script[0].read)
      case Failure(_) =>
      case Success(ev) =>
        var rest := if script[0].flush.Some? then [] else Records(script[1..]);
        assert ([ev] + rest)[0] == ev && ([ev] + rest)[1..] == rest;
        if script[0].flush.None? {
          LoopKeys(Apply(keys, ev), ch, script[1..]);
        }
    }
  }

  /** The loop makes exactly one notification attempt per store-writing
      record it decodes, carrying that record's code, in order. */
  lemma {:induction false} LoopNotifies(keys: KeyMap, ch: Channel, script: seq<Iteration>)
    requires ch.capacity == 0 && Mailbox.Valid(ch) && !ch.closed
    ensures Notified(Loop(keys, ch, script).trace) == WrittenCodes(Records(script))
    decreases |script|
  {
    if script != [] {
      match ReadEvent(script[0].read)
      case Failure(_) =>
      case Success(ev) =>
        var s := Step(keys, ch, ev, script[0].consumerWaiting);
        var rest := if script[0].flush.Some? then [] else Records(script[1..]);
        WrittenCodesCons(ev, rest);
        if script[0].flush.None? {
          LoopNotifies(s.keys, ch, script[1..]);
          NotifiedAppend(s.actions, Loop(s.keys, ch, script[1..]).trace);
        }
    }
  }

  /** In the loop's trace every notification attempt follows the store write
      for the same key, and none is ever queued: each is delivered to a
      waiting consumer or dropped. */
  lemma {:induction false} LoopWritesThenNotifies(keys: KeyMap, ch: Channel, script: seq<Iteration>)
    requires ch.capacity == 0 && Mailbox.Valid(ch) && !ch.closed
    ensures WriteBeforeNotify(Loop(keys, ch, script).trace)
    ensures forall a :: a in Loop(keys, ch, script).trace && a.Notify? ==> a.outcome != Buffered
    decreases |script|
  {
    if script != [] {
      match ReadEvent(script[0].read)
      case Failure(_) =>
      case Success(ev) =>
        var s := Step(keys, ch, ev, script[0].consumerWaiting);
        if script[0].flush.None? {
          LoopWritesThenNotifies(s.keys, ch, script[1..]);
          WriteBeforeNotifyAppend(s.actions, Loop(s.keys, ch, script[1..]).trace);
        }
    }
  }

  /** Starting from the empty store, after the loop a key is down exactly when
      the last store-writing record it decoded for that key was a press. */
  lemma IsDownAfterLoop(ch: Channel, script: seq<Iteration>, k: KeyCode)
    requires ch.capacity == 0 && Mailbox.Valid(ch) && !ch.closed
    ensures Lookup(Loop(map[], ch, script).keys, k) <==> LastSetting(Records(script), k) == Some(true)
  {
    LoopKeys(map[], ch, script);
    LookupFromEmpty(Records(script), k);
  }
}
