/**
 * The reference-counted callback gate `Refcount` (index.js:112-145).
 *
 * It wraps the middleware's `next` callback. `incr` counts one upload in
 * flight, `decr` one upload finished, `close` says the form has ended and
 * `cancel(err, code)` reports a failure. The success callback `cb()` is due
 * once the count is zero and `close` has been called; `cancel` calls
 * `cb(err)` at once and never again.
 *
 * The pure part (Tracker, Step, Replay) says what one call and a whole
 * sequence of calls do; the class Refcount holds the same three fields and
 * is proved to follow Replay over the calls made on it.
 */
module Refcounting {
  import opened Common

  /** One invocation of the wrapped callback: `cb()` is Done, `cb(err)` is Failed(err). */
  datatype Outcome = Done | Failed(err: Error)

  /**
   * A call made on a Refcount. `code` is the status code given to cancel;
   * the source reads it only as a truth value and then discards it.
   */
  datatype Event = Incr | Decr | Close | Cancel(err: Error, code: int)

  /** The three fields of a Refcount (the callback itself is the Outcome log). */
  datatype Tracker = Tracker(count: int, closed: bool, canceled: bool)

  /** A new Refcount: nothing counted, not closed, not canceled. */
  const Fresh: Tracker := Tracker(0, false, false)

  /** maybecall's firing condition: not canceled, closed, and the count is exactly zero. */
  predicate Fires(t: Tracker)
  {
    !t.canceled && t.closed && t.count == 0
  }

  /** maybecall: the tracker is unchanged, and `cb()` is called when it fires. */
  function MaybeCall(t: Tracker): (Tracker, seq<Outcome>)
  {
    (t, if Fires(t) then [Done] else [])
  }

  /** The effect of one call on the fields, and the callback invocations it makes. */
  function Step(t: Tracker, e: Event): (r: (Tracker, seq<Outcome>))
    ensures |r.1| <= 1
    ensures r.0.canceled == (t.canceled || e.Cancel?)
    ensures r.0.closed == (t.closed || e.Close?)
    ensures t.canceled ==> r.1 == []
    ensures r.1 == [Done] <==> (e.Decr? || e.Close?) && Fires(r.0)
    ensures (r.1 != [] && r.1[0].Failed?) <==> e.Cancel? && !t.canceled
    ensures e.Cancel? && !t.canceled ==> r.1 == [Failed(e.err)]
  {
    match e
    case Incr => (t.(count := t.count + 1), [])
    case Decr => MaybeCall(t.(count := t.count - 1))
    case Close => MaybeCall(t.(closed := true))
    case Cancel(err, _) =>
      if t.canceled then (t, []) else (t.(canceled := true), [Failed(err)])
  }

  /**
   * The fields after the calls `evs`, made in order from `t`, and every
   * callback invocation they make. A canceled tracker stays canceled and
   * never calls back again, whatever follows.
   */
  function Replay(t: Tracker, evs: seq<Event>): (r: (Tracker, seq<Outcome>))
    ensures |r.1| <= |evs|
    ensures t.canceled ==> r.0.canceled && r.1 == []
    decreases |evs|
  {
    if evs == [] then (t, [])
    else
      var (before, calls) := Replay(t, evs[..|evs| - 1]);
      var (after, out) := Step(before, evs[|evs| - 1]);
      (after, calls + out)
  }

  /** Replaying one more call is one more Step. */
  lemma ReplaySnoc(t: Tracker, evs: seq<Event>, e: Event)
    ensures Replay(t, evs + [e]) == (Step(Replay(t, evs).0, e).0, Replay(t, evs).1 + Step(Replay(t, evs).0, e).1)
  {
    assert (evs + [e])[..|evs + [e]| - 1] == evs;
  }

  function Incrs(evs: seq<Event>): nat
    decreases |evs|
  {
    if evs == [] then 0 else Incrs(evs[..|evs| - 1]) + (if evs[|evs| - 1].Incr? then 1 else 0)
  }

  function Decrs(evs: seq<Event>): nat
    decreases |evs|
  {
    if evs == [] then 0 else Decrs(evs[..|evs| - 1]) + (if evs[|evs| - 1].Decr? then 1 else 0)
  }

  /** The counts after one more call. */
  lemma CountsSnoc(evs: seq<Event>, e: Event)
    ensures Incrs(evs + [e]) == Incrs(evs) + (if e.Incr? then 1 else 0)
    ensures Decrs(evs + [e]) == Decrs(evs) + (if e.Decr? then 1 else 0)
    ensures Close in evs + [e] <==> Close in evs || e == Close
  {
    assert (evs + [e])[..|evs + [e]| - 1] == evs;
  }

  predicate Canceled(evs: seq<Event>)
  {
    exists i :: 0 <= i < |evs| && evs[i].Cancel?
  }

  /** The error of the earliest cancel in `evs`, if there is one. */
  function FirstCancel(evs: seq<Event>): (r: Option<Error>)
    ensures r.Some? <==> Canceled(evs)
    ensures r.Some? ==> exists i :: 0 <= i < |evs| && evs[i].Cancel? && evs[i].err == r.value &&
                                    !Canceled(evs[..i])
    decreases |evs|
  {
    if evs == [] then None
    else
      var p := evs[..|evs| - 1];
      var earlier := FirstCancel(p);
      assert forall i :: 0 <= i < |p| ==> p[..i] == evs[..i];
      if earlier.Some? then earlier
      else if evs[|evs| - 1].Cancel? then
        assert evs[..|evs| - 1] == p;
        Some(evs[|evs| - 1].err)
      else None
  }

  /** The fields after a sequence of calls are determined by the counts of each kind of call. */
  lemma {:induction false} ReplayFields(t: Tracker, evs: seq<Event>)
    ensures Replay(t, evs).0 ==
            Tracker(t.count + Incrs(evs) - Decrs(evs), t.closed || Close in evs, t.canceled || Canceled(evs))
    decreases |evs|
  {
    if evs != [] {
      var p := evs[..|evs| - 1];
      ReplayFields(t, p);
      assert evs == p + [evs[|evs| - 1]];
      if Canceled(evs) && !Canceled(p) {
        assert evs[|evs| - 1].Cancel?;
      }
      if Canceled(p) {
        var i :| 0 <= i < |p| && p[i].Cancel?;
        assert evs[i] == p[i];
      }
    }
  }

  /** No callback invocation ever follows a failure: at most one `cb(err)`, and it is the last call. */
  predicate NothingAfterFailure(calls: seq<Outcome>)
  {
    forall i :: 0 <= i < |calls| - 1 ==> !calls[i].Failed?
  }

  lemma {:induction false} FailureIsFinal(t: Tracker, evs: seq<Event>)
    ensures NothingAfterFailure(Replay(t, evs).1)
    ensures (exists i :: 0 <= i < |Replay(t, evs).1| && Replay(t, evs).1[i].Failed?) ==> Replay(t, evs).0.canceled
    decreases |evs|
  {
    if evs != [] {
      var p := evs[..|evs| - 1];
      FailureIsFinal(t, p);
      var (before, calls) := Replay(t, p);
      var (after, out) := Step(before, evs[|evs| - 1]);
      assert Replay(t, evs) == (after, calls + out);
      if exists i :: 0 <= i < |calls| && calls[i].Failed? {
        assert out == [];
        assert calls + out == calls;
      }
    }
  }

  /** When the tracker starts uncanceled, the error delivered (if any) is the one given to the first cancel. */
  lemma {:induction false} FirstErrorWins(t: Tracker, evs: seq<Event>)
    requires !t.canceled
    ensures forall o :: o in Replay(t, evs).1 && o.Failed? ==> FirstCancel(evs) == Some(o.err)
    ensures FirstCancel(evs).Some? ==> Failed(FirstCancel(evs).value) in Replay(t, evs).1
    decreases |evs|
  {
    if evs != [] {
      var p := evs[..|evs| - 1];
      FirstErrorWins(t, p);
      ReplayFields(t, p);
      var (before, calls) := Replay(t, p);
      var (after, out) := Step(before, evs[|evs| - 1]);
      assert Replay(t, evs) == (after, calls + out);
      if FirstCancel(p).Some? {
        assert before.canceled;
        assert calls + out == calls;
      }
    }
  }

  /**
   * The calling discipline the relay is meant to follow: no cancel, nothing
   * but decrements after the close (so every incr precedes the single
   * close), and every decrement matches an earlier increment.
   */
  predicate Allowed(before: seq<Event>, e: Event)
  {
    && !e.Cancel?
    && (Close in before ==> e.Decr?)
    && (e.Decr? ==> Decrs(before) < Incrs(before))
  }

  predicate Protocol(evs: seq<Event>)
    decreases |evs|
  {
    evs == [] || (Protocol(evs[..|evs| - 1]) && Allowed(evs[..|evs| - 1], evs[|evs| - 1]))
  }

  /** A sequence of calls extended by one call keeps the protocol exactly when that call is allowed. */
  lemma ProtocolSnoc(evs: seq<Event>, e: Event)
    ensures Protocol(evs + [e]) <==> Protocol(evs) && Allowed(evs, e)
  {
    assert (evs + [e])[..|evs + [e]| - 1] == evs;
  }

  /**
   * Under the protocol the callback has been called exactly once, with no
   * error, after the calls `evs` exactly when the close has happened and every
   * increment has been matched; otherwise it has not been called at all.
   */
  lemma {:induction false} ProtocolCalls(evs: seq<Event>)
    requires Protocol(evs)
    ensures Replay(Fresh, evs).1 == if Close in evs && Incrs(evs) == Decrs(evs) then [Done] else []
    decreases |evs|
  {
    if evs != [] {
      var p := evs[..|evs| - 1];
      var e := evs[|evs| - 1];
      assert evs == p + [e];
      ProtocolSnoc(p, e);
      ProtocolCalls(p);
      ReplayFields(Fresh, p);
      ReplaySnoc(Fresh, p, e);
      CountsSnoc(p, e);
      ProtocolNoCancel(p);
      match e {
        case Incr =>
        case Decr =>
          if Close in p && Incrs(p) == Decrs(p) {
            assert false;
          }
        case Close =>
        case Cancel(_, _) =>
      }
    }
  }

  lemma {:induction false} ProtocolNoCancel(evs: seq<Event>)
    requires Protocol(evs)
    ensures !Canceled(evs)
    decreases |evs|
  {
    if evs != [] {
      var p := evs[..|evs| - 1];
      ProtocolNoCancel(p);
      forall i | 0 <= i < |evs| ensures !evs[i].Cancel? {
        if i < |p| { assert evs[i] == p[i]; }
      }
    }
  }

  lemma {:induction false} ProtocolPrefix(evs: seq<Event>, k: nat)
    requires Protocol(evs) && k <= |evs|
    ensures Protocol(evs[..k])
    decreases |evs|
  {
    if k < |evs| {
      var p := evs[..|evs| - 1];
      ProtocolPrefix(p, k);
      assert p[..k] == evs[..k];
    } else {
      assert evs[..k] == evs;
    }
  }

  /** After the close only decrements follow, so a closed prefix already holds every increment. */
  lemma {:induction false} ClosedTail(evs: seq<Event>, k: nat)
    requires Protocol(evs) && k <= |evs| && Close in evs[..k]
    ensures Incrs(evs) == Incrs(evs[..k])
    ensures Decrs(evs) == Decrs(evs[..k]) + (|evs| - k)
    decreases |evs|
  {
    if k == |evs| {
      assert evs[..k] == evs;
    } else {
      var p := evs[..|evs| - 1];
      assert p[..k] == evs[..k];
      ClosedTail(p, k);
      assert Close in p by {
        var i :| 0 <= i < k && evs[..k][i] == Close;
        assert p[i] == Close;
      }
    }
  }

  /**
   * N increments, N decrements and one close, in any order the protocol
   * allows, call the callback once with no error, at the last call (the close
   * or the last decrement, whichever comes last) and never earlier.
   */
  lemma SucceedsExactlyOnce(evs: seq<Event>)
    requires Protocol(evs) && Close in evs && Incrs(evs) == Decrs(evs)
    ensures Replay(Fresh, evs).1 == [Done]
    ensures forall k :: 0 <= k < |evs| ==> Replay(Fresh, evs[..k]).1 == []
  {
    ProtocolCalls(evs);
    forall k | 0 <= k < |evs|
      ensures Replay(Fresh, evs[..k]).1 == []
    {
      ProtocolPrefix(evs, k);
      ProtocolCalls(evs[..k]);
      if Close in evs[..k] {
        ClosedTail(evs, k);
      }
    }
  }

  /** The first cancel after one more call: an earlier one stays first. */
  lemma FirstCancelSnoc(evs: seq<Event>, e: Event)
    ensures FirstCancel(evs + [e]) ==
            if FirstCancel(evs).Some? then FirstCancel(evs) else if e.Cancel? then Some(e.err) else None
  {
    assert (evs + [e])[..|evs + [e]| - 1] == evs;
  }

  /**
   * The calling discipline the relay keeps when uploads or the form may fail:
   * increments and the close come before any close, every decrement matches
   * an earlier increment, and a cancel after the close comes only while an
   * increment is still unmatched (a failure cannot arrive once every upload
   * has finished and the form has closed).
   */
  predicate Permitted(before: seq<Event>, e: Event)
  {
    && (e.Incr? || e.Close? ==> Close !in before)
    && (e.Decr? ==> Decrs(before) < Incrs(before))
    && (e.Cancel? && Close in before ==> Decrs(before) < Incrs(before))
  }

  predicate PermittedCalls(evs: seq<Event>)
    decreases |evs|
  {
    evs == [] || (PermittedCalls(evs[..|evs| - 1]) && Permitted(evs[..|evs| - 1], evs[|evs| - 1]))
  }

  lemma PermittedSnoc(evs: seq<Event>, e: Event)
    ensures PermittedCalls(evs + [e]) <==> PermittedCalls(evs) && Permitted(evs, e)
  {
    assert (evs + [e])[..|evs + [e]| - 1] == evs;
  }

  /**
   * Under that discipline the callback is called at most once: with the
   * first cancel's error when there has been a cancel, otherwise with no
   * error exactly when the close has happened and every increment has been
   * matched.
   */
  lemma {:induction false} PermittedCallsLog(evs: seq<Event>)
    requires PermittedCalls(evs)
    ensures Replay(Fresh, evs).1 ==
            if FirstCancel(evs).Some? then [Failed(FirstCancel(evs).value)]
            else if Close in evs && Incrs(evs) == Decrs(evs) then [Done]
            else []
    decreases |evs|
  {
    if evs != [] {
      var p := evs[..|evs| - 1];
      var e := evs[|evs| - 1];
      assert evs == p + [e];
      PermittedSnoc(p, e);
      PermittedCallsLog(p);
      ReplayFields(Fresh, p);
      ReplaySnoc(Fresh, p, e);
      CountsSnoc(p, e);
      FirstCancelSnoc(p, e);
    }
  }

  /** Under that discipline the callback is called at most once. */
  lemma PermittedCallsOnce(evs: seq<Event>)
    requires PermittedCalls(evs)
    ensures |Replay(Fresh, evs).1| <= 1
  {
    PermittedCallsLog(evs);
  }

  /**
   * The success callback is not one-shot: nothing records that `cb()` has
   * run, and `maybecall` tests only `canceled`, `closed` and `count`, so a
   * second close calls `cb()` again. The relay relies on the decoder
   * closing a form once.
   */
  lemma SecondCloseCallsAgain()
    ensures Replay(Fresh, [Close, Close]).1 == [Done, Done]
  {
  }

  /**
   * A cancel after a success still calls `cb(err)`: nothing records that
   * `cb()` has run, and `cancel` tests only `canceled`. The relay relies on
   * no failure arriving once every upload has finished and the form has
   * closed.
   */
  lemma CancelAfterSuccessCallsAgain(err: Error, code: int)
    ensures Replay(Fresh, [Close, Cancel(err, code)]).1 == [Done, Failed(err)]
  {
    assert [Close, Cancel(err, code)][..1] == [Close];
    assert [Close][..0] == [];
  }

  /** A Refcount object. `calls` logs every invocation of the wrapped callback, `history` every call made on it. */
  class Refcount {
    var count: int
    var closed: bool
    var canceled: bool
    ghost var calls: seq<Outcome>
    ghost var history: seq<Event>

    function State(): Tracker
      reads this
    {
      Tracker(count, closed, canceled)
    }

    /** The fields and the callback log are those that replaying the history from a fresh tracker gives. */
    ghost predicate Valid()
      reads this
    {
      Replay(Fresh, history) == (State(), calls)
    }

    constructor ()
      ensures Valid() && State() == Fresh && calls == [] && history == []
    {
      count, closed, canceled := 0, false, false;
      calls, history := [], [];
    }

    method Incr()
      requires Valid()
      modifies this
      ensures Valid() && history == old(history) + [Event.Incr]
      ensures count == old(count) + 1 && closed == old(closed) && canceled == old(canceled)
      ensures calls == old(calls)
    {
      count := count + 1;
      history := history + [Event.Incr];
      assert history[..|history| - 1] == old(history);
      assert calls + [] == calls;
    }

    method Decr()
      requires Valid()
      modifies this
      ensures Valid() && history == old(history) + [Event.Decr]
      ensures count == old(count) - 1 && closed == old(closed) && canceled == old(canceled)
      ensures calls == old(calls) + (if Fires(State()) then [Done] else [])
    {
      count := count - 1;
      MaybeCall();
      history := history + [Event.Decr];
      assert history[..|history| - 1] == old(history);
    }

    method Close()
      requires Valid()
      modifies this
      ensures Valid() && history == old(history) + [Event.Close]
      ensures closed && count == old(count) && canceled == old(canceled)
      ensures calls == old(calls) + (if Fires(State()) then [Done] else [])
    {
      closed := true;
      MaybeCall();
      history := history + [Event.Close];
      assert history[..|history| - 1] == old(history);
    }

    /** The first cancel calls back with its error; later ones change nothing. */
    method Cancel(err: Error, code: int)
      requires Valid()
      modifies this
      ensures Valid() && history == old(history) + [Event.Cancel(err, code)]
      ensures canceled && count == old(count) && closed == old(closed)
      ensures calls == old(calls) + (if old(canceled) then [] else [Failed(err)])
    {
      if !canceled {
        canceled := true;
        calls := calls + [Failed(err)];
      }
      history := history + [Event.Cancel(err, code)];
      assert history[..|history| - 1] == old(history);
      assert old(calls) + [] == old(calls);
    }

    /** Calls back with no error when the tracker fires. */
    method MaybeCall()
      modifies this`calls
      ensures calls == old(calls) + (if Fires(State()) then [Done] else [])
    {
      if !canceled && closed && count == 0 {
        calls := calls + [Done];
      }
    }
  }
}
