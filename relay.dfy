/**
 * The middleware built by `pipe` (index.js:14-63) and the handlers it
 * registers on the multipart form of each request.
 *
 * Each request gets an empty `req.form`, an empty `req.files` and a
 * Refcount around the middleware's `next`. The decoder's events become
 * calls: a field is stored (last write wins); a file part whose content
 * type the allow test accepts is either refused for the whole request when
 * the byte limit is passed, or named by the filename generator, counted and
 * handed to the streamer; each streamer completion either cancels the
 * request or records the part's name and uncounts it; the form's close and
 * error go to the Refcount.
 *
 * RelayState, Step and Run say what the handlers do to a request's state;
 * the class Request is that state, proved to follow Run over the events it
 * has received.
 */
module Relay {
  import opened Common
  import RC = Refcounting
  import opened OptionDefaults

  /**
   * What a handler needs from the normalised options: the content-type test
   * built from `allow`, the filename generator, the byte limit and the
   * decoder's encoding. The streamer is represented by the log of its calls.
   */
  datatype Config = Config(
    allow: string -> bool,
    fngen: (string, string) -> string,
    limit: int,
    encoding: string)

  /** Status codes the handlers give to cancel (the Refcount discards them). */
  const LimitCode: int := 413
  const UploadCode: int := 500
  const MalformedCode: int := 400

  /** A part with a filename is a file; one without is not handled here. */
  predicate IsFile(part: Part)
  {
    part.filename != ""
  }

  /**
   * The byte-limit test: a limit of 0 switches it off; otherwise the bytes
   * the decoder has received so far or the bytes it expects in all (0 when
   * the request gives no length) must not exceed the limit.
   */
  predicate OverLimit(limit: int, received: int, expected: int)
  {
    limit != 0 && (received > limit || expected > limit)
  }

  /** What the part handler does with a part. */
  datatype Decision = Skip | TooLarge | Admit

  /**
   * The part handler's tests, in the source's order: a part that is not a
   * file, or whose content type is not allowed, is skipped before the limit
   * is looked at; an admitted-type file over the limit fails the request.
   */
  function Decide(cfg: Config, part: Part, received: int, expected: int): (d: Decision)
    ensures d == Skip <==> !IsFile(part) || !cfg.allow(part.contentType)
    ensures d == TooLarge <==> IsFile(part) && cfg.allow(part.contentType) && OverLimit(cfg.limit, received, expected)
    ensures cfg.limit == 0 ==> d != TooLarge
  {
    if !IsFile(part) then Skip
    else if !cfg.allow(part.contentType) then Skip
    else if OverLimit(cfg.limit, received, expected) then TooLarge
    else Admit
  }

  /** One call of the streamer: the part and the name generated for it. */
  datatype Upload = Upload(part: Part, key: string)

  /**
   * The state of one request: `req.form`, `req.files`, the Refcount's fields
   * and the calls of `next` it has made, the streamer calls made so far, and
   * whether `req.abort()` has been called.
   */
  datatype RelayState = RelayState(
    form: map<string, string>,
    files: map<string, string>,
    tracker: RC.Tracker,
    calls: seq<RC.Outcome>,
    uploads: seq<Upload>,
    aborted: bool)

  const Start: RelayState := RelayState(map[], map[], RC.Fresh, [], [], false)

  /**
   * An event of the request: a field or part from the decoder, the
   * completion of the streamer call with index `upload` (err None is a
   * success), the form's close, or the form's error.
   */
  datatype FormEvent =
    | Field(name: string, value: string)
    | PartArrived(part: Part, received: int, expected: int)
    | Stored(upload: nat, err: Option<Error>)
    | FormClosed
    | FormFailed(failure: Error)

  /**
   * `obj[key] = value` on a plain JavaScript object (`req.form`, `req.files`)
   * with a string value. The key '__proto__' reaches the prototype setter,
   * which ignores a value that is not an object, so nothing is stored.
   */
  const ProtoKey: string := "__proto__"

  function Assign(obj: map<string, string>, key: string, value: string): map<string, string>
  {
    if key == ProtoKey then obj else obj[key := value]
  }

  /** The calls one event makes on the request's Refcount: none or one. */
  function Signals(cfg: Config, s: RelayState, ev: FormEvent): (sig: seq<RC.Event>)
    ensures |sig| <= 1
    ensures RC.Close in sig <==> ev.FormClosed?
    ensures RC.Decr in sig ==> ev.Stored?
  {
    match ev
    case Field(_, _) => []
    case PartArrived(part, received, expected) =>
      (match Decide(cfg, part, received, expected)
       case Skip => []
       case TooLarge => [RC.Cancel(ByteLimitExceeded, LimitCode)]
       case Admit => [RC.Incr])
    case Stored(id, err) =>
      if id >= |s.uploads| then [] else if err.Some? then [RC.Cancel(err.value, UploadCode)] else [RC.Decr]
    case FormClosed => [RC.Close]
    case FormFailed(err) => [RC.Cancel(err, MalformedCode)]
  }

  /** Makes one call on the request's Refcount. */
  function Signal(s: RelayState, e: RC.Event): RelayState
  {
    var (t, out) := RC.Step(s.tracker, e);
    s.(tracker := t, calls := s.calls + out)
  }

  /**
   * The handlers. A field updates only `req.form` (last write wins,
   * '__proto__' stores nothing). A skipped part changes nothing. A part over
   * the limit aborts and cancels without counting or streaming. An admitted
   * part is named, counted and streamed. A failed upload cancels; a
   * successful one records its name and uncounts it. A completion whose
   * index names no streamer call made so far changes nothing; the class
   * Request never delivers one.
   */
  function Step(cfg: Config, s: RelayState, ev: FormEvent): (r: RelayState)
    ensures s.uploads <= r.uploads && |r.uploads| <= |s.uploads| + 1
    ensures s.calls <= r.calls && |r.calls| <= |s.calls| + 1
    ensures ev.Field? && ev.name != ProtoKey ==> r == s.(form := s.form[ev.name := ev.value])
    ensures ev.Field? && ev.name == ProtoKey ==> r == s
    ensures !ev.Field? ==> r.form == s.form
    ensures ev.PartArrived? && Decide(cfg, ev.part, ev.received, ev.expected) == Skip ==> r == s
    ensures ev.PartArrived? && Decide(cfg, ev.part, ev.received, ev.expected) == TooLarge ==>
              r.aborted && r.tracker.canceled && r.tracker.count == s.tracker.count &&
              r.uploads == s.uploads && r.files == s.files
    ensures ev.PartArrived? && Decide(cfg, ev.part, ev.received, ev.expected) == Admit ==>
              r.uploads == s.uploads + [Upload(ev.part, cfg.fngen(ev.part.filename, ev.part.contentType))] &&
              r.tracker == s.tracker.(count := s.tracker.count + 1) && r.calls == s.calls &&
              r.files == s.files && r.aborted == s.aborted
    ensures ev.Stored? && ev.upload >= |s.uploads| ==> r == s
    ensures ev.Stored? && ev.upload < |s.uploads| && ev.err.Some? ==>
              r.tracker.canceled && r.tracker.count == s.tracker.count &&
              r.files == s.files && r.uploads == s.uploads && r.aborted == s.aborted
    ensures ev.Stored? && ev.upload < |s.uploads| && ev.err.None? ==>
              r.files == (if s.uploads[ev.upload].part.filename == ProtoKey then s.files
                          else s.files[s.uploads[ev.upload].part.filename := s.uploads[ev.upload].key]) &&
              r.tracker == s.tracker.(count := s.tracker.count - 1) &&
              r.uploads == s.uploads && r.aborted == s.aborted
    ensures ev.FormClosed? ==> r.tracker == s.tracker.(closed := true) && r.files == s.files && r.uploads == s.uploads
    ensures ev.FormFailed? ==> r.tracker.canceled && r.files == s.files && r.uploads == s.uploads
  {
    match ev
    case Field(name, value) => s.(form := Assign(s.form, name, value))
    case PartArrived(part, received, expected) =>
      (match Decide(cfg, part, received, expected)
       case Skip => s
       case TooLarge => Signal(s.(aborted := true), RC.Cancel(ByteLimitExceeded, LimitCode))
       case Admit =>
         var key := cfg.fngen(part.filename, part.contentType);
         Signal(s, RC.Incr).(uploads := s.uploads + [Upload(part, key)]))
    case Stored(id, err) =>
      if id >= |s.uploads| then s
      else if err.Some? then Signal(s, RC.Cancel(err.value, UploadCode))
      else
        var upload := s.uploads[id];
        Signal(s.(files := Assign(s.files, upload.part.filename, upload.key)), RC.Decr)
    case FormClosed => Signal(s, RC.Close)
    case FormFailed(err) => Signal(s, RC.Cancel(err, MalformedCode))
  }

  /** An event's effect on the Refcount part of the state is that of the calls Signals lists. */
  lemma StepSignals(cfg: Config, s: RelayState, ev: FormEvent)
    ensures Signals(cfg, s, ev) == [] ==> Step(cfg, s, ev).tracker == s.tracker && Step(cfg, s, ev).calls == s.calls
    ensures Signals(cfg, s, ev) != [] ==>
              Step(cfg, s, ev).tracker == RC.Step(s.tracker, Signals(cfg, s, ev)[0]).0 &&
              Step(cfg, s, ev).calls == s.calls + RC.Step(s.tracker, Signals(cfg, s, ev)[0]).1
    ensures |Step(cfg, s, ev).uploads| == |s.uploads| + (if Signals(cfg, s, ev) == [RC.Incr] then 1 else 0)
  {
  }

  /** The state of a request after the events `evs`, in order. */
  function Run(cfg: Config, evs: seq<FormEvent>): RelayState
    decreases |evs|
  {
    if evs == [] then Start else Step(cfg, Run(cfg, evs[..|evs| - 1]), evs[|evs| - 1])
  }

  /** Every call the events `evs` make on the request's Refcount, in order. */
  function Induced(cfg: Config, evs: seq<FormEvent>): seq<RC.Event>
    decreases |evs|
  {
    if evs == [] then []
    else
      var p := evs[..|evs| - 1];
      Induced(cfg, p) + Signals(cfg, Run(cfg, p), evs[|evs| - 1])
  }

  /** One step of Run: the state after the earlier events, stepped by the last one. */
  lemma RunStep(cfg: Config, p: seq<FormEvent>, e: FormEvent)
    ensures Run(cfg, p + [e]) == Step(cfg, Run(cfg, p), e)
  {
    assert (p + [e])[..|p + [e]| - 1] == p;
  }

  /** One step of Induced: the calls of the earlier events, then those of the last one. */
  lemma InducedStep(cfg: Config, p: seq<FormEvent>, e: FormEvent)
    ensures Induced(cfg, p + [e]) == Induced(cfg, p) + Signals(cfg, Run(cfg, p), e)
  {
    assert (p + [e])[..|p + [e]| - 1] == p;
  }

  /** The indices of the streamer calls that have called back in `evs`. */
  function Completed(evs: seq<FormEvent>): set<nat>
    decreases |evs|
  {
    if evs == [] then {}
    else
      var e := evs[|evs| - 1];
      Completed(evs[..|evs| - 1]) + (if e.Stored? then {e.upload} else {})
  }

  /**
   * The request's Refcount is driven by exactly the calls Induced lists: its
   * fields and every call of `next` are those that replaying them gives.
   */
  lemma {:induction false} RunFollowsRefcount(cfg: Config, evs: seq<FormEvent>)
    ensures (Run(cfg, evs).tracker, Run(cfg, evs).calls) == RC.Replay(RC.Fresh, Induced(cfg, evs))
    decreases |evs|
  {
    if evs != [] {
      var p := evs[..|evs| - 1];
      var e := evs[|evs| - 1];
      assert evs == p + [e];
      var s := Run(cfg, p);
      RunStep(cfg, p, e);
      InducedStep(cfg, p, e);
      RunFollowsRefcount(cfg, p);
      StepSignals(cfg, s, e);
      var sig := Signals(cfg, s, e);
      if sig == [] {
        assert Induced(cfg, evs) == Induced(cfg, p);
      } else {
        assert sig == [sig[0]];
        RC.ReplaySnoc(RC.Fresh, Induced(cfg, p), sig[0]);
      }
    }
  }

  /**
   * Whatever the decoder and the streamers do, `next` is never called after
   * it has been called with an error, and that error is the one of the first
   * failure: a byte-limit breach, a failed upload or a form error.
   */
  lemma OneErrorAtMost(cfg: Config, evs: seq<FormEvent>)
    ensures RC.NothingAfterFailure(Run(cfg, evs).calls)
    ensures forall o :: o in Run(cfg, evs).calls && o.Failed? ==> RC.FirstCancel(Induced(cfg, evs)) == Some(o.err)
    ensures RC.FirstCancel(Induced(cfg, evs)).Some? ==>
              RC.Failed(RC.FirstCancel(Induced(cfg, evs)).value) in Run(cfg, evs).calls
  {
    RunFollowsRefcount(cfg, evs);
    RC.FailureIsFinal(RC.Fresh, Induced(cfg, evs));
    RC.FirstErrorWins(RC.Fresh, Induced(cfg, evs));
  }

  /** Every streamer call is for an admitted file part, under the name the generator gives it. */
  lemma {:induction false} UploadsAdmitted(cfg: Config, evs: seq<FormEvent>)
    ensures forall u :: u in Run(cfg, evs).uploads ==>
              IsFile(u.part) && cfg.allow(u.part.contentType) && u.key == cfg.fngen(u.part.filename, u.part.contentType)
    decreases |evs|
  {
    if evs != [] {
      UploadsAdmitted(cfg, evs[..|evs| - 1]);
    }
  }

  /** Every entry of `req.files` maps a part's original filename to the name generated for one of its uploads. */
  lemma {:induction false} FilesNameUploads(cfg: Config, evs: seq<FormEvent>)
    ensures forall name :: name in Run(cfg, evs).files ==>
              exists u :: u in Run(cfg, evs).uploads && u.part.filename == name && Run(cfg, evs).files[name] == u.key
    decreases |evs|
  {
    if evs != [] {
      var p := evs[..|evs| - 1];
      FilesNameUploads(cfg, p);
      var s := Run(cfg, p);
      var r := Run(cfg, evs);
      forall name | name in r.files
        ensures exists u :: u in r.uploads && u.part.filename == name && r.files[name] == u.key
      {
        var e := evs[|evs| - 1];
        if e.Stored? && e.upload < |s.uploads| && e.err.None? && name == s.uploads[e.upload].part.filename &&
           name != ProtoKey {
          assert s.uploads[e.upload] in r.uploads;
        } else {
          assert name in s.files;
          var u :| u in s.uploads && u.part.filename == name && s.files[name] == u.key;
          assert u in r.uploads;
        }
      }
    }
  }

  /** Neither `req.form` nor `req.files` ever gets an entry under '__proto__', whatever the events. */
  lemma {:induction false} ProtoNeverStored(cfg: Config, evs: seq<FormEvent>)
    ensures ProtoKey !in Run(cfg, evs).form && ProtoKey !in Run(cfg, evs).files
    decreases |evs|
  {
    if evs != [] {
      ProtoNeverStored(cfg, evs[..|evs| - 1]);
    }
  }

  lemma CompletedSnoc(p: seq<FormEvent>, e: FormEvent)
    ensures Completed(p + [e]) == Completed(p) + (if e.Stored? then {e.upload} else {})
  {
    assert (p + [e])[..|p + [e]| - 1] == p;
  }

  /**
   * A request in which nothing fails ("well-behaved"): no form error, no
   * part over the limit, every completion a success for a streamer call
   * already made that has not called back before, and nothing but
   * completions after the close. Contracted below allows the failures.
   */
  predicate Orderly(cfg: Config, before: seq<FormEvent>, ev: FormEvent)
  {
    && !ev.FormFailed?
    && (ev.PartArrived? ==> Decide(cfg, ev.part, ev.received, ev.expected) != TooLarge)
    && (ev.Stored? ==> ev.err.None? && ev.upload < |Run(cfg, before).uploads| && ev.upload !in Completed(before))
    && (FormClosed in before ==> ev.Stored?)
  }

  predicate WellBehaved(cfg: Config, evs: seq<FormEvent>)
    decreases |evs|
  {
    evs == [] || (WellBehaved(cfg, evs[..|evs| - 1]) && Orderly(cfg, evs[..|evs| - 1], evs[|evs| - 1]))
  }

  /** A set of naturals below n has at most n elements. */
  lemma {:induction false} BoundedSetSize(s: set<nat>, n: nat)
    requires forall i :: i in s ==> i < n
    ensures |s| <= n
    decreases n
  {
    if n > 0 {
      BoundedSetSize(s - {n - 1}, n - 1);
    } else {
      assert s == {};
    }
  }

  lemma InSnoc<T>(p: seq<T>, e: T, x: T)
    ensures x in p + [e] <==> x in p || x == e
  {
    if x in p + [e] && x != e {
      var i :| 0 <= i < |p + [e]| && (p + [e])[i] == x;
      assert p[i] == x;
    }
    if x in p {
      var i :| 0 <= i < |p| && p[i] == x;
      assert (p + [e])[i] == x;
    }
  }

  /** A request makes one Refcount `incr` per streamer call. */
  lemma {:induction false} InducedIncrs(cfg: Config, evs: seq<FormEvent>)
    ensures RC.Incrs(Induced(cfg, evs)) == |Run(cfg, evs).uploads|
    decreases |evs|
  {
    if evs != [] {
      var p := evs[..|evs| - 1];
      var e := evs[|evs| - 1];
      assert evs == p + [e];
      InducedIncrs(cfg, p);
      InducedStep(cfg, p, e);
      RunStep(cfg, p, e);
      StepSignals(cfg, Run(cfg, p), e);
      var sig := Signals(cfg, Run(cfg, p), e);
      if sig == [] {
        assert Induced(cfg, evs) == Induced(cfg, p);
      } else {
        assert sig == [sig[0]];
        RC.CountsSnoc(Induced(cfg, p), sig[0]);
      }
    }
  }

  /** A request makes a Refcount `close` exactly when its form has closed. */
  lemma {:induction false} InducedCloses(cfg: Config, evs: seq<FormEvent>)
    ensures RC.Close in Induced(cfg, evs) <==> FormClosed in evs
    decreases |evs|
  {
    if evs != [] {
      var p := evs[..|evs| - 1];
      var e := evs[|evs| - 1];
      assert evs == p + [e];
      InducedCloses(cfg, p);
      InducedStep(cfg, p, e);
      var sig := Signals(cfg, Run(cfg, p), e);
      if sig == [] {
        assert Induced(cfg, evs) == Induced(cfg, p);
      } else {
        assert sig == [sig[0]] && sig[0] in sig;
        RC.CountsSnoc(Induced(cfg, p), sig[0]);
      }
      InSnoc(p, e, FormClosed);
    }
  }

  /** The Refcount calls of a request, counted: one incr per streamer call, one close per form close. */
  lemma InducedCounts(cfg: Config, evs: seq<FormEvent>)
    ensures RC.Incrs(Induced(cfg, evs)) == |Run(cfg, evs).uploads|
    ensures RC.Close in Induced(cfg, evs) <==> FormClosed in evs
  {
    InducedIncrs(cfg, evs);
    InducedCloses(cfg, evs);
  }

  /**
   * An orderly event's Refcount call is one the Refcount's protocol allows,
   * given that the calls so far count one incr per streamer call, one decr
   * per completed call, and a close exactly when the form has closed.
   */
  lemma SignalAllowed(cfg: Config, s: RelayState, before: seq<RC.Event>, done: set<nat>, closed: bool, e: FormEvent)
    requires !e.FormFailed?
    requires e.PartArrived? ==> Decide(cfg, e.part, e.received, e.expected) != TooLarge
    requires e.Stored? ==> e.err.None? && e.upload < |s.uploads| && e.upload !in done
    requires closed ==> e.Stored?
    requires RC.Incrs(before) == |s.uploads| && RC.Decrs(before) == |done|
    requires RC.Close in before <==> closed
    requires forall i :: i in done ==> i < |s.uploads|
    ensures forall x :: x in Signals(cfg, s, e) ==> RC.Allowed(before, x)
  {
    if e.Stored? {
      BoundedSetSize(done + {e.upload}, |s.uploads|);
    }
  }

  /** Under Orderly, the completed calls stay distinct and below the number of streamer calls. */
  lemma CompletedStep(cfg: Config, p: seq<FormEvent>, e: FormEvent)
    requires e.Stored? ==> e.upload < |Run(cfg, p).uploads| && e.upload !in Completed(p)
    requires forall i :: i in Completed(p) ==> i < |Run(cfg, p).uploads|
    ensures forall i :: i in Completed(p + [e]) ==> i < |Run(cfg, p + [e]).uploads|
    ensures |Completed(p + [e])| == |Completed(p)| + (if e.Stored? then 1 else 0)
  {
  }

  /** One orderly event keeps the Refcount calls within the Refcount's protocol. */
  lemma WellBehavedStep(cfg: Config, p: seq<FormEvent>, e: FormEvent)
    requires Orderly(cfg, p, e)
    requires RC.Protocol(Induced(cfg, p)) && RC.Decrs(Induced(cfg, p)) == |Completed(p)|
    requires forall i :: i in Completed(p) ==> i < |Run(cfg, p).uploads|
    ensures RC.Protocol(Induced(cfg, p + [e])) && RC.Decrs(Induced(cfg, p + [e])) == |Completed(p + [e])|
    ensures forall i :: i in Completed(p + [e]) ==> i < |Run(cfg, p + [e]).uploads|
  {
    InducedIncrs(cfg, p);
    InducedCloses(cfg, p);
    CompletedStep(cfg, p, e);
    InducedStep(cfg, p, e);
    var s := Run(cfg, p);
    var before := Induced(cfg, p);
    var sig := Signals(cfg, s, e);
    SignalAllowed(cfg, s, before, Completed(p), FormClosed in p, e);
    if sig == [] {
      assert Induced(cfg, p + [e]) == before;
      assert !e.Stored?;
    } else {
      assert sig == [sig[0]] && sig[0] in sig;
      assert sig[0].Decr? <==> e.Stored?;
      RC.ProtocolSnoc(before, sig[0]);
      RC.CountsSnoc(before, sig[0]);
    }
  }

  /** A well-behaved request drives its Refcount according to the Refcount's protocol. */
  lemma {:induction false} WellBehavedFollowsProtocol(cfg: Config, evs: seq<FormEvent>)
    requires WellBehaved(cfg, evs)
    ensures RC.Protocol(Induced(cfg, evs))
    ensures RC.Decrs(Induced(cfg, evs)) == |Completed(evs)|
    ensures forall i :: i in Completed(evs) ==> i < |Run(cfg, evs).uploads|
    decreases |evs|
  {
    if evs != [] {
      var p := evs[..|evs| - 1];
      var e := evs[|evs| - 1];
      assert evs == p + [e];
      WellBehavedFollowsProtocol(cfg, p);
      WellBehavedStep(cfg, p, e);
    }
  }

  /**
   * What the decoder and the streamers promise when failures are allowed:
   * the decoder sends nothing after its close, and every streamer call
   * calls back once, with an error or without one. A part over the limit, a
   * failed upload and a form error may all happen.
   */
  predicate Honest(cfg: Config, before: seq<FormEvent>, ev: FormEvent)
  {
    && (!ev.Stored? ==> FormClosed !in before)
    && (ev.Stored? ==> ev.upload < |Run(cfg, before).uploads| && ev.upload !in Completed(before))
  }

  predicate Contracted(cfg: Config, evs: seq<FormEvent>)
    decreases |evs|
  {
    evs == [] || (Contracted(cfg, evs[..|evs| - 1]) && Honest(cfg, evs[..|evs| - 1], evs[|evs| - 1]))
  }

  /**
   * An honest event's Refcount call is one the failure-tolerant protocol
   * permits, given that the calls so far count one incr per streamer call,
   * at most one decr per completed call, and a close exactly when the form
   * has closed.
   */
  lemma SignalPermitted(cfg: Config, s: RelayState, before: seq<RC.Event>, done: set<nat>, closed: bool, e: FormEvent)
    requires !e.Stored? ==> !closed
    requires e.Stored? ==> e.upload < |s.uploads| && e.upload !in done
    requires RC.Incrs(before) == |s.uploads| && RC.Decrs(before) <= |done|
    requires RC.Close in before <==> closed
    requires forall i :: i in done ==> i < |s.uploads|
    ensures forall x :: x in Signals(cfg, s, e) ==> RC.Permitted(before, x)
  {
    if e.Stored? {
      BoundedSetSize(done + {e.upload}, |s.uploads|);
    }
  }

  /** One honest event keeps the Refcount calls within the failure-tolerant protocol. */
  lemma ContractedStep(cfg: Config, p: seq<FormEvent>, e: FormEvent)
    requires Honest(cfg, p, e)
    requires RC.PermittedCalls(Induced(cfg, p)) && RC.Decrs(Induced(cfg, p)) <= |Completed(p)|
    requires forall i :: i in Completed(p) ==> i < |Run(cfg, p).uploads|
    ensures RC.PermittedCalls(Induced(cfg, p + [e])) && RC.Decrs(Induced(cfg, p + [e])) <= |Completed(p + [e])|
    ensures forall i :: i in Completed(p + [e]) ==> i < |Run(cfg, p + [e]).uploads|
  {
    InducedIncrs(cfg, p);
    InducedCloses(cfg, p);
    CompletedStep(cfg, p, e);
    InducedStep(cfg, p, e);
    var s := Run(cfg, p);
    var before := Induced(cfg, p);
    var sig := Signals(cfg, s, e);
    SignalPermitted(cfg, s, before, Completed(p), FormClosed in p, e);
    if sig == [] {
      assert Induced(cfg, p + [e]) == before;
    } else {
      assert sig == [sig[0]] && sig[0] in sig;
      RC.PermittedSnoc(before, sig[0]);
      RC.CountsSnoc(before, sig[0]);
    }
  }

  /** A request whose decoder and streamers keep their promises drives its Refcount within the failure-tolerant protocol. */
  lemma {:induction false} ContractedFollowsPermitted(cfg: Config, evs: seq<FormEvent>)
    requires Contracted(cfg, evs)
    ensures RC.PermittedCalls(Induced(cfg, evs))
    ensures RC.Decrs(Induced(cfg, evs)) <= |Completed(evs)|
    ensures forall i :: i in Completed(evs) ==> i < |Run(cfg, evs).uploads|
    decreases |evs|
  {
    if evs != [] {
      var p := evs[..|evs| - 1];
      var e := evs[|evs| - 1];
      assert evs == p + [e];
      ContractedFollowsPermitted(cfg, p);
      ContractedStep(cfg, p, e);
    }
  }

  /**
   * Whether or not something fails, a request whose decoder and streamers
   * keep their promises calls `next` at most once. After any failure that
   * one call carries the first failure's error; `next()` without an error
   * comes only after the close, and only when nothing has failed.
   */
  lemma ExactlyOnceWithFailures(cfg: Config, evs: seq<FormEvent>)
    requires Contracted(cfg, evs)
    ensures |Run(cfg, evs).calls| <= 1
    ensures RC.FirstCancel(Induced(cfg, evs)).Some? ==>
              Run(cfg, evs).calls == [RC.Failed(RC.FirstCancel(Induced(cfg, evs)).value)]
    ensures Run(cfg, evs).calls == [RC.Done] ==> FormClosed in evs && RC.FirstCancel(Induced(cfg, evs)).None?
  {
    RunFollowsRefcount(cfg, evs);
    ContractedFollowsPermitted(cfg, evs);
    InducedCloses(cfg, evs);
    RC.PermittedCallsLog(Induced(cfg, evs));
  }

  /**
   * For a well-behaved request, `next` has been called exactly once, with no
   * error, when the form has closed and every streamer call has called back;
   * until then it has not been called.
   */
  lemma WellBehavedCallsNext(cfg: Config, evs: seq<FormEvent>)
    requires WellBehaved(cfg, evs)
    ensures Run(cfg, evs).calls ==
            if FormClosed in evs && |Completed(evs)| == |Run(cfg, evs).uploads| then [RC.Done] else []
  {
    RunFollowsRefcount(cfg, evs);
    WellBehavedFollowsProtocol(cfg, evs);
    InducedCounts(cfg, evs);
    RC.ProtocolCalls(Induced(cfg, evs));
  }

  lemma {:induction false} WellBehavedPrefix(cfg: Config, evs: seq<FormEvent>, k: nat)
    requires WellBehaved(cfg, evs) && k <= |evs|
    ensures WellBehaved(cfg, evs[..k])
    decreases |evs|
  {
    if k < |evs| {
      var p := evs[..|evs| - 1];
      WellBehavedPrefix(cfg, p, k);
      assert p[..k] == evs[..k];
    } else {
      assert evs[..k] == evs;
    }
  }

  /** After the close only new completions arrive: no more streamer calls, one more completion per event. */
  lemma {:induction false} ClosedRequestTail(cfg: Config, evs: seq<FormEvent>, k: nat)
    requires WellBehaved(cfg, evs) && k <= |evs| && FormClosed in evs[..k]
    ensures Run(cfg, evs).uploads == Run(cfg, evs[..k]).uploads
    ensures |Completed(evs)| == |Completed(evs[..k])| + (|evs| - k)
    decreases |evs|
  {
    if k == |evs| {
      assert evs[..k] == evs;
    } else {
      var p := evs[..|evs| - 1];
      assert p[..k] == evs[..k];
      ClosedRequestTail(cfg, p, k);
      ClosedEventIsCompletion(cfg, evs, k);
    }
  }

  /** An orderly event after the close is a fresh, successful completion: it adds no streamer call. */
  lemma ClosedEventIsCompletion(cfg: Config, evs: seq<FormEvent>, k: nat)
    requires k < |evs| && FormClosed in evs[..k] && Orderly(cfg, evs[..|evs| - 1], evs[|evs| - 1])
    ensures Run(cfg, evs).uploads == Run(cfg, evs[..|evs| - 1]).uploads
    ensures |Completed(evs)| == |Completed(evs[..|evs| - 1])| + 1
  {
    var i :| 0 <= i < k && evs[..k][i] == FormClosed;
    assert evs[..|evs| - 1][i] == FormClosed;
  }

  /**
   * A well-behaved request whose form closes and whose streamer calls all
   * call back calls `next` exactly once, with no error, at its last event,
   * and not before.
   */
  lemma WellBehavedSucceedsOnce(cfg: Config, evs: seq<FormEvent>)
    requires WellBehaved(cfg, evs) && FormClosed in evs
    requires |Completed(evs)| == |Run(cfg, evs).uploads|
    ensures Run(cfg, evs).calls == [RC.Done]
    ensures forall k :: 0 <= k < |evs| ==> Run(cfg, evs[..k]).calls == []
  {
    WellBehavedCallsNext(cfg, evs);
    forall k | 0 <= k < |evs|
      ensures Run(cfg, evs[..k]).calls == []
    {
      WellBehavedPrefix(cfg, evs, k);
      WellBehavedCallsNext(cfg, evs[..k]);
      if FormClosed in evs[..k] {
        ClosedRequestTail(cfg, evs, k);
      }
    }
  }

  /** A well-behaved request with no file admitted succeeds at its close, with an empty `req.files`. */
  lemma NoFilesSucceedEmpty(cfg: Config, evs: seq<FormEvent>)
    requires WellBehaved(cfg, evs) && FormClosed in evs && Run(cfg, evs).uploads == []
    ensures Run(cfg, evs).calls == [RC.Done] && Run(cfg, evs).files == map[]
  {
    WellBehavedFollowsProtocol(cfg, evs);
    assert Completed(evs) == {};
    WellBehavedCallsNext(cfg, evs);
    FilesNameUploads(cfg, evs);
  }

  /** The handler's options, read from options already normalised by `defaults`. */
  function ConfigOf(s: Settings, matches: (string, string) -> bool): (cfg: Config)
    requires Normal(s)
    ensures cfg.limit == s.limit.n && cfg.encoding == s.encoding
    ensures forall contentType :: cfg.allow(contentType) == matches(s.allow.source, contentType)
    ensures cfg.fngen == s.filename.f
  {
    Config((contentType: string) => matches(s.allow.source, contentType), s.filename.f, s.limit.n, s.encoding)
  }

  /** A limit of 0 given to `pipe` keeps the part handler's limit test off: no part is refused as too large. */
  lemma ZeroLimitNeverRefuses(s: Settings, parse: string -> int, matches: (string, string) -> bool,
                              part: Part, received: int, expected: int)
    requires s.streamer && s.limit == Bytes(0)
    ensures Normalize(s, parse).Ok?
    ensures Decide(ConfigOf(Normalize(s, parse).value, matches), part, received, expected) != TooLarge
  {
    ZeroLimitKept(s, parse);
  }

  /**
   * Without a `limit` option the part handler refuses an allowed file part
   * exactly when '128mb' parses to a non-zero size and the bytes received or
   * expected exceed it.
   */
  lemma DefaultLimitApplies(s: Settings, parse: string -> int, matches: (string, string) -> bool,
                            part: Part, received: int, expected: int)
    requires s.streamer && s.limit.Unset?
    ensures Normalize(s, parse).Ok?
    ensures Decide(ConfigOf(Normalize(s, parse).value, matches), part, received, expected) == TooLarge <==>
              IsFile(part) && matches(Normalize(s, parse).value.allow.source, part.contentType) &&
              parse(DefaultLimit) != 0 && (received > parse(DefaultLimit) || expected > parse(DefaultLimit))
  {
  }

  /**
   * Without a `filename` function among the options, an admitted part is
   * streamed, and later recorded in `req.files`, under its original filename.
   */
  lemma DefaultKeyIsFilename(s: Settings, parse: string -> int, matches: (string, string) -> bool,
                             st: RelayState, part: Part, received: int, expected: int)
    requires s.streamer && !s.filename.Function?
    requires Decide(ConfigOf(Normalize(s, parse).value, matches), part, received, expected) == Admit
    ensures Step(ConfigOf(Normalize(s, parse).value, matches), st, PartArrived(part, received, expected)).uploads ==
              st.uploads + [Upload(part, part.filename)]
  {
  }

  /**
   * `pipe(options)`: normalises the options in place (throwing as `defaults`
   * does) and builds the handlers' configuration from them. `matches` is
   * RegExp.test on a pattern's source, `parse` the `bytes` parser.
   */
  method Pipe(opts: Options?, parse: string -> int, matches: (string, string) -> bool) returns (r: Result<Config>)
    modifies opts
    ensures opts == null ==> r == Thrown(MissingStreamer)
    ensures opts != null ==> (r.Thrown? <==> !old(opts.streamer))
    ensures r.Ok? ==> opts != null && Normalize(old(opts.Value()), parse) == Ok(opts.Value()) &&
                      Normal(opts.Value()) && r.value == ConfigOf(opts.Value(), matches)
  {
    var normalized := Defaults(opts, parse);
    if normalized.Thrown? {
      return Thrown(normalized.error);
    }
    r := Ok(ConfigOf(opts.Value(), matches));
  }

  /** The handlers' state for one request. `events` records what the request has received. */
  class Request {
    const cfg: Config
    const refnext: RC.Refcount
    var form: map<string, string>
    var files: map<string, string>
    var uploads: seq<Upload>
    var aborted: bool
    ghost var events: seq<FormEvent>

    ghost function Snapshot(): RelayState
      reads this, refnext
    {
      RelayState(form, files, refnext.State(), refnext.calls, uploads, aborted)
    }

    /** The state is the one the events received so far give. */
    ghost predicate Valid()
      reads this, refnext
    {
      refnext.Valid() && Snapshot() == Run(cfg, events)
    }

    /** A new request: empty `req.form` and `req.files`, and a new Refcount around `next`. */
    constructor (cfg: Config)
      ensures Valid() && fresh(refnext) && this.cfg == cfg
      ensures events == [] && Snapshot() == Start
    {
      this.cfg := cfg;
      form, files, uploads, aborted := map[], map[], [], false;
      refnext := new RC.Refcount();
      events := [];
    }

    /** `field`: the value is stored under its name (never under '__proto__'); a repeated name keeps the last value. */
    method OnField(name: string, value: string)
      requires Valid()
      modifies this
      ensures Valid() && events == old(events) + [Field(name, value)]
      ensures name != ProtoKey ==> form == old(form)[name := value]
      ensures name == ProtoKey ==> form == old(form)
      ensures Snapshot() == Step(cfg, old(Snapshot()), Field(name, value))
    {
      RunStep(cfg, events, Field(name, value));
      events := events + [Field(name, value)];
      if name != ProtoKey {
        form := form[name := value];
      }
    }

    /** `part`: skip, fail the request at the byte limit, or name, count and stream the part. */
    method OnPart(part: Part, received: int, expected: int)
      requires Valid()
      modifies this, refnext
      ensures Valid() && events == old(events) + [PartArrived(part, received, expected)]
      ensures Snapshot() == Step(cfg, old(Snapshot()), PartArrived(part, received, expected))
    {
      events := events + [PartArrived(part, received, expected)];
      assert events[..|events| - 1] == old(events);
      if part.filename == "" {
        return;
      }
      if !cfg.allow(part.contentType) {
        return;
      }
      if cfg.limit != 0 && (received > cfg.limit || expected > cfg.limit) {
        aborted := true;
        refnext.Cancel(ByteLimitExceeded, LimitCode);
        return;
      }
      var key := cfg.fngen(part.filename, part.contentType);
      refnext.Incr();
      uploads := uploads + [Upload(part, key)];
    }

    /**
     * The callback of streamer call `upload`: an error fails the request;
     * a success records the part's name under its original filename and
     * uncounts it.
     */
    method OnStreamed(upload: nat, err: Option<Error>)
      requires Valid() && upload < |uploads|
      modifies this, refnext
      ensures Valid() && events == old(events) + [Stored(upload, err)]
      ensures Snapshot() == Step(cfg, old(Snapshot()), Stored(upload, err))
    {
      events := events + [Stored(upload, err)];
      assert events[..|events| - 1] == old(events);
      if err.Some? {
        refnext.Cancel(err.value, UploadCode);
        return;
      }
      if uploads[upload].part.filename != ProtoKey {
        files := files[uploads[upload].part.filename := uploads[upload].key];
      }
      refnext.Decr();
    }

    /** `close`: the form has ended. */
    method OnClose()
      requires Valid()
      modifies this, refnext
      ensures Valid() && events == old(events) + [FormClosed]
      ensures Snapshot() == Step(cfg, old(Snapshot()), FormClosed)
    {
      RunStep(cfg, events, FormClosed);
      events := events + [FormClosed];
      refnext.Close();
    }

    /** `error`: the form could not be decoded. */
    method OnError(err: Error)
      requires Valid()
      modifies this, refnext
      ensures Valid() && events == old(events) + [FormFailed(err)]
      ensures Snapshot() == Step(cfg, old(Snapshot()), FormFailed(err))
    {
      RunStep(cfg, events, FormFailed(err));
      events := events + [FormFailed(err)];
      refnext.Cancel(err, MalformedCode);
    }
  }
}
