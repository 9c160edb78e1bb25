/** Stack traces: assembling frames from a raw backtrace, the immutable trace
    object, and its text rendering. */
module Traces {
  import opened Outcomes
  import opened Text
  import opened PhpValues
  import opened Locations
  import opened Reflection
  import opened ClassIdentifiers
  import opened FunctionIdentifiers
  import opened Arguments
  import opened Frames
  import opened Anchors
  import opened Views

  // ---------------------------------------------------------------------------
  // Assembly

  /** The file of the helper the Veneer proxies route calls through. */
  const PROXY_SUFFIX: string := "Veneer/ProxyTrait.php"

  /** Whether a record is a proxy frame. A missing file counts as the empty one;
      a file that is not a string cannot be passed to `str_ends_with`. */
  function IsProxy(rec: RawRecord): (r: Result<bool>)
    ensures rec.file.VNull? ==> r == Ok(false)
    ensures rec.file.VString? ==> r == Ok(EndsWith(rec.file.s, PROXY_SUFFIX))
    ensures r.Err? <==> !rec.file.VNull? && !rec.file.VString?
    ensures r.Err? ==> r.error == TypeError
  {
    match rec.file
    case VNull => Ok(false)
    case VString(s) => Ok(EndsWith(s, PROXY_SUFFIX))
    case _ => Err(TypeError)
  }

  predicate NonProxy(rec: RawRecord) { IsProxy(rec) == Ok(false) }

  /** A record moved one place along the stack: its own file and line become
      the call site, and the file and line carried from the previous record
      become its location. */
  function Relabel(rec: RawRecord, prev: (Value, Value)): (r: RawRecord)
    ensures r.callFile == rec.file && r.callLine == rec.line
    ensures r.file == prev.0 && r.line == prev.1
    ensures r.callee == rec.callee && r.className == rec.className && r.callType == rec.callType && r.args == rec.args
  {
    rec.(callFile := rec.file, callLine := rec.line, file := prev.0, line := prev.1)
  }

  /** The file and line carried into the loop: those of the first record. */
  function Initial(records: seq<RawRecord>): (Value, Value) {
    if |records| == 0 then (VNull, VNull) else (records[0].file, records[0].line)
  }

  /** The state of the assembly loop: the carried file and line (`$last`),
      whether the anchor has been found, and the frames kept so far. */
  datatype State = State(prev: (Value, Value), found: bool, output: seq<Frame>)

  /** How a record becomes a frame. The loop is stated for any builder; a trace
      uses `Frame::fromDebugBacktrace`. */
  type Builder = RawRecord -> Result<Frame>

  function FrameBuilder(rt: Runtime): (build: Builder)
    ensures forall rec :: build(rec) == FromRecord(rec, rt)
  {
    rec => FromRecord(rec, rt)
  }

  /** One turn of the loop over the record at `index`. */
  function Step(st: State, index: nat, rec: RawRecord, anchor: Option<Anchor>, build: Builder): Result<State> {
    match IsProxy(rec)
    case Err(e) => Err(e)
    case Ok(true) => Ok(st)
    case Ok(false) =>
      (match build(Relabel(rec, st.prev))
       case Err(e) => Err(e)
       case Ok(frame) =>
         var prev := (rec.file, rec.line);
         if st.found || (anchor.Some? && Accepts(anchor.value, index, frame)) then
           Ok(State(prev, true, st.output + [frame]))
         else
           Ok(State(prev, false, st.output)))
  }

  /** The loop over the first `n` records; the first exception stops it. */
  function Run(records: seq<RawRecord>, n: nat, anchor: Option<Anchor>, build: Builder): Result<State>
    requires n <= |records|
  {
    if n == 0 then Ok(State(Initial(records), anchor.None?, []))
    else
      match Run(records, n - 1, anchor, build)
      case Err(e) => Err(e)
      case Ok(st) => Step(st, n - 1, records[n - 1], anchor, build)
  }

  /** `Trace::fromDebugBacktrace` as a value: the kept frames, the first
      exception, or an empty stack. */
  function Assemble(records: seq<RawRecord>, anchor: Option<Anchor>, build: Builder): (r: Result<seq<Frame>>)
    ensures r.Ok? ==> |r.value| > 0
  {
    match Run(records, |records|, anchor, build)
    case Err(e) => Err(e)
    case Ok(st) => if |st.output| == 0 then Err(EmptyStack) else Ok(st.output)
  }

  /** An exception ends the loop for good. */
  lemma {:induction false} RunErrPersists(records: seq<RawRecord>, i: nat, n: nat, anchor: Option<Anchor>, build: Builder)
    requires i <= n <= |records| && Run(records, i, anchor, build).Err?
    ensures Run(records, n, anchor, build) == Run(records, i, anchor, build)
    decreases n
  {
    if n > i {
      RunErrPersists(records, i, n - 1, anchor, build);
    }
  }

  /** The loop of `fromDebugBacktrace` as it runs, one record after the other;
      `build` makes a frame of a record (`FrameBuilder` gives the runtime's). */
  method AssembleFrames(records: seq<RawRecord>, anchor: Option<Anchor>, build: Builder)
    returns (r: Result<seq<Frame>>)
    ensures r == Assemble(records, anchor, build)
  {
    var prev := Initial(records);
    var found := anchor.None?;
    var output: seq<Frame> := [];
    for i := 0 to |records|
      invariant Run(records, i, anchor, build) == Ok(State(prev, found, output))
    {
      var rec := records[i];
      var proxy := IsProxy(rec);
      if proxy.Err? {
        RunErrPersists(records, i + 1, |records|, anchor, build);
        return Err(proxy.error);
      }
      if proxy.value {
        continue;
      }
      var relabelled := Relabel(rec, prev);
      var frame := build(relabelled);
      if frame.Err? {
        RunErrPersists(records, i + 1, |records|, anchor, build);
        return Err(frame.error);
      }
      prev := (relabelled.callFile, relabelled.callLine);
      if !found {
        if anchor.Some? && Accepts(anchor.value, i, frame.value) {
          found := true;
        } else {
          continue;
        }
      }
      output := output + [frame.value];
    }
    if |output| == 0 {
      return Err(EmptyStack);
    }
    return Ok(output);
  }

  // ---------------------------------------------------------------------------
  // What assembly gives, stated without the loop

  /** The last record before `n` that is not a proxy. */
  function LastNonProxy(records: seq<RawRecord>, n: nat): (r: Option<nat>)
    requires n <= |records|
    ensures r.Some? ==> r.value < n && NonProxy(records[r.value]) &&
                        forall k :: r.value < k < n ==> !NonProxy(records[k])
    ensures r.None? ==> forall k :: 0 <= k < n ==> !NonProxy(records[k])
  {
    if n == 0 then None
    else if NonProxy(records[n - 1]) then Some(n - 1)
    else LastNonProxy(records, n - 1)
  }

  /** The location a record at `n` is given: the file and line of the last
      record before it that is not a proxy, or of the first record when there
      is none. */
  function PrevFileLine(records: seq<RawRecord>, n: nat): (r: (Value, Value))
    requires n <= |records|
    ensures LastNonProxy(records, n).Some? ==>
              r == (records[LastNonProxy(records, n).value].file, records[LastNonProxy(records, n).value].line)
    ensures LastNonProxy(records, n).None? ==> r == Initial(records)
  {
    match LastNonProxy(records, n)
    case Some(j) => (records[j].file, records[j].line)
    case None => Initial(records)
  }

  /** The frame the record at `j` gives. */
  function FrameAt(records: seq<RawRecord>, j: nat, build: Builder): Result<Frame>
    requires j < |records|
  {
    build(Relabel(records[j], PrevFileLine(records, j)))
  }

  /** No exception among the first `n` records: every file is a string or
      missing, and every record that is not a proxy gives a frame. */
  predicate Buildable(records: seq<RawRecord>, n: nat, build: Builder)
    requires n <= |records|
  {
    forall j :: 0 <= j < n ==>
      IsProxy(records[j]).Ok? && (NonProxy(records[j]) ==> FrameAt(records, j, build).Ok?)
  }

  /** Whether the anchor accepts the frame of the record at `j`. */
  predicate AcceptedAt(records: seq<RawRecord>, j: nat, anchor: Anchor, build: Builder) {
    j < |records| && NonProxy(records[j]) && FrameAt(records, j, build).Ok? &&
    Accepts(anchor, j, FrameAt(records, j, build).value)
  }

  /** Whether there is no anchor or it accepted a frame before `n`. */
  function AnchorSeen(records: seq<RawRecord>, n: nat, anchor: Option<Anchor>, build: Builder): (r: bool)
    ensures r <==> anchor.None? || exists j :: 0 <= j < n && AcceptedAt(records, j, anchor.value, build)
  {
    if anchor.None? then true
    else if n == 0 then false
    else AnchorSeen(records, n - 1, anchor, build) || AcceptedAt(records, n - 1, anchor.value, build)
  }

  /** The indices in `lo..n` of the records that are not proxies, in order. */
  function NonProxyIndices(records: seq<RawRecord>, lo: nat, n: nat): (r: seq<nat>)
    requires n <= |records|
    ensures forall i :: 0 <= i < |r| ==> lo <= r[i] < n && NonProxy(records[r[i]])
  {
    if n <= lo then []
    else if NonProxy(records[n - 1]) then NonProxyIndices(records, lo, n - 1) + [n - 1]
    else NonProxyIndices(records, lo, n - 1)
  }

  predicate Increasing(r: seq<nat>) {
    forall i, k :: 0 <= i < k < |r| ==> r[i] < r[k]
  }

  /** The indices are increasing. */
  lemma {:induction false} NonProxyIndicesIncreasing(records: seq<RawRecord>, lo: nat, n: nat)
    requires n <= |records|
    ensures Increasing(NonProxyIndices(records, lo, n))
  {
    if n > lo {
      NonProxyIndicesIncreasing(records, lo, n - 1);
      var r' := NonProxyIndices(records, lo, n - 1);
      if NonProxy(records[n - 1]) {
        var r := r' + [n - 1];
        forall i, k | 0 <= i < k < |r| ensures r[i] < r[k] {
          assert r[i] == r'[i] && r'[i] < n - 1;
          if k < |r'| {
            assert r[k] == r'[k];
          }
        }
        assert Increasing(r);
      }
    }
  }

  /** The indices miss no record in `lo..n` that is not a proxy. */
  lemma {:induction false} NonProxyIndicesComplete(records: seq<RawRecord>, lo: nat, n: nat)
    requires n <= |records|
    ensures forall j :: lo <= j < n && NonProxy(records[j]) ==> j in NonProxyIndices(records, lo, n)
  {
    if n > lo {
      NonProxyIndicesComplete(records, lo, n - 1);
      var r' := NonProxyIndices(records, lo, n - 1);
      forall j | lo <= j < n && NonProxy(records[j]) ensures j in NonProxyIndices(records, lo, n) {
        if j < n - 1 {
          assert j in r';
        }
      }
    }
  }

  /** The frames of the records in `lo..n` that are not proxies, in order. */
  function Between(records: seq<RawRecord>, lo: nat, n: nat, build: Builder): (r: seq<Frame>)
    requires n <= |records| && Buildable(records, n, build)
    ensures var idx := NonProxyIndices(records, lo, n);
            |r| == |idx| && forall i :: 0 <= i < |idx| ==> r[i] == FrameAt(records, idx[i], build).value
  {
    var idx := NonProxyIndices(records, lo, n);
    seq(|idx|, i requires 0 <= i < |idx| => FrameAt(records, idx[i], build).value)
  }

  /** The frames kept from the first `n` records: those of non-proxy records at
      or after the first one the anchor accepts. */
  function Kept(records: seq<RawRecord>, n: nat, anchor: Option<Anchor>, build: Builder): seq<Frame>
    requires n <= |records| && Buildable(records, n, build)
  {
    if n == 0 then []
    else
      Kept(records, n - 1, anchor, build) +
      (if NonProxy(records[n - 1]) && AnchorSeen(records, n, anchor, build)
       then [FrameAt(records, n - 1, build).value] else [])
  }

  /** The carried location skips proxies: after a proxy it is what it was
      before; after any other record it is that record's file and line. */
  lemma PrevFileLineStep(records: seq<RawRecord>, n: nat)
    requires 0 < n <= |records|
    ensures !NonProxy(records[n - 1]) ==> PrevFileLine(records, n) == PrevFileLine(records, n - 1)
    ensures NonProxy(records[n - 1]) ==> PrevFileLine(records, n) == (records[n - 1].file, records[n - 1].line)
  {
  }

  /** The loop computes the carried location, the anchor flag and the kept
      frames of the definitions above, as long as no record fails. */
  lemma {:induction false} RunComputes(records: seq<RawRecord>, n: nat, anchor: Option<Anchor>, build: Builder)
    requires n <= |records| && Buildable(records, n, build)
    ensures Run(records, n, anchor, build) == Ok(Expected(records, n, anchor, build))
  {
    if n > 0 {
      StepComputes(records, n, anchor, build);
      RunComputes(records, n - 1, anchor, build);
      assert Run(records, n, anchor, build) == Step(Expected(records, n - 1, anchor, build), n - 1, records[n - 1], anchor, build);
    }
  }

  /** The state the loop should reach after `n` records. */
  function Expected(records: seq<RawRecord>, n: nat, anchor: Option<Anchor>, build: Builder): State
    requires n <= |records| && Buildable(records, n, build)
  {
    State(PrevFileLine(records, n), AnchorSeen(records, n, anchor, build), Kept(records, n, anchor, build))
  }

  /** One turn of the loop moves the state of `n - 1` records to that of `n`. */
  lemma StepComputes(records: seq<RawRecord>, n: nat, anchor: Option<Anchor>, build: Builder)
    requires 0 < n <= |records| && Buildable(records, n, build)
    ensures Buildable(records, n - 1, build)
    ensures Step(Expected(records, n - 1, anchor, build), n - 1, records[n - 1], anchor, build) ==
            Ok(Expected(records, n, anchor, build))
  {
    assert Buildable(records, n - 1, build);
    PrevFileLineStep(records, n);
    var rec := records[n - 1];
    assert IsProxy(rec).Ok?;
    if NonProxy(rec) {
      var st := State(PrevFileLine(records, n - 1), AnchorSeen(records, n - 1, anchor, build), Kept(records, n - 1, anchor, build));
      assert FrameAt(records, n - 1, build).Ok?;
      var f := FrameAt(records, n - 1, build).value;
      assert build(Relabel(rec, st.prev)) == Ok(f);
      var found := st.found || (anchor.Some? && Accepts(anchor.value, n - 1, f));
      assert Step(st, n - 1, rec, anchor, build) ==
             Ok(State((rec.file, rec.line), found, if found then st.output + [f] else st.output));
      assert found == AnchorSeen(records, n, anchor, build);
      assert Kept(records, n, anchor, build) == if found then st.output + [f] else st.output;
    } else {
      assert IsProxy(rec) == Ok(true);
      assert !AcceptedAt(records, n - 1, anchor.GetOr(Rewind(0)), build);
      assert AnchorSeen(records, n, anchor, build) == AnchorSeen(records, n - 1, anchor, build);
      assert Kept(records, n, anchor, build) == Kept(records, n - 1, anchor, build) + [];
      assert Kept(records, n, anchor, build) == Kept(records, n - 1, anchor, build);
      assert PrevFileLine(records, n) == PrevFileLine(records, n - 1);
      var st := State(PrevFileLine(records, n - 1), AnchorSeen(records, n - 1, anchor, build), Kept(records, n - 1, anchor, build));
      assert Step(st, n - 1, rec, anchor, build) == Ok(st);
    }
  }

  /** A record that fails makes the whole loop fail. */
  lemma {:induction false} RunFails(records: seq<RawRecord>, n: nat, anchor: Option<Anchor>, build: Builder)
    requires n <= |records| && !Buildable(records, n, build)
    ensures Run(records, n, anchor, build).Err?
  {
    if !Buildable(records, n - 1, build) {
      RunFails(records, n - 1, anchor, build);
    } else {
      RunComputes(records, n - 1, anchor, build);
      StepFails(records, n, anchor, build);
    }
  }

  /** The turn over a record that fails fails. */
  lemma StepFails(records: seq<RawRecord>, n: nat, anchor: Option<Anchor>, build: Builder)
    requires 0 < n <= |records| && Buildable(records, n - 1, build) && !Buildable(records, n, build)
    ensures Step(Expected(records, n - 1, anchor, build), n - 1, records[n - 1], anchor, build).Err?
  {
    var rec := records[n - 1];
    if IsProxy(rec).Ok? && (NonProxy(rec) ==> FrameAt(records, n - 1, build).Ok?) {
      assert false;
    }
    if IsProxy(rec).Ok? {
      assert build(Relabel(rec, Expected(records, n - 1, anchor, build).prev)).Err?;
    }
  }

  /** Assembly succeeds exactly when no record fails and a frame is kept, and
      then gives the kept frames. */
  lemma AssembleIsKept(records: seq<RawRecord>, anchor: Option<Anchor>, build: Builder)
    ensures Assemble(records, anchor, build).Ok? <==>
              Buildable(records, |records|, build) && |Kept(records, |records|, anchor, build)| > 0
    ensures Assemble(records, anchor, build).Ok? ==> Assemble(records, anchor, build).value == Kept(records, |records|, anchor, build)
    ensures Buildable(records, |records|, build) && |Kept(records, |records|, anchor, build)| == 0 ==>
              Assemble(records, anchor, build) == Err(EmptyStack)
  {
    if Buildable(records, |records|, build) {
      RunComputes(records, |records|, anchor, build);
    } else {
      RunFails(records, |records|, anchor, build);
    }
  }

  /** Without an anchor every record that is not a proxy gives one frame, in
      the order of the records. */
  lemma {:induction false} KeptWithoutAnchor(records: seq<RawRecord>, n: nat, build: Builder)
    requires n <= |records| && Buildable(records, n, build)
    ensures Kept(records, n, None, build) == Between(records, 0, n, build)
  {
    if n > 0 {
      assert Buildable(records, n - 1, build);
      KeptWithoutAnchor(records, n - 1, build);
      BetweenStep(records, 0, n, build);
      assert AnchorSeen(records, n, None, build);
      assert Kept(records, n, None, build) ==
             Kept(records, n - 1, None, build) +
             (if NonProxy(records[n - 1]) then [FrameAt(records, n - 1, build).value] else []);
    }
  }

  /** `Between` grows by the frame of a last record that is not a proxy. */
  lemma BetweenStep(records: seq<RawRecord>, lo: nat, n: nat, build: Builder)
    requires lo < n <= |records| && Buildable(records, n, build)
    ensures Buildable(records, n - 1, build)
    ensures Between(records, lo, n, build) ==
            Between(records, lo, n - 1, build) +
            (if NonProxy(records[n - 1]) then [FrameAt(records, n - 1, build).value] else [])
  {
    assert Buildable(records, n - 1, build);
    var a := Between(records, lo, n, build);
    var b := Between(records, lo, n - 1, build);
    var idx := NonProxyIndices(records, lo, n);
    var idx' := NonProxyIndices(records, lo, n - 1);
    if NonProxy(records[n - 1]) {
      assert idx == idx' + [n - 1];
      var last := [FrameAt(records, n - 1, build).value];
      forall i | 0 <= i < |a| ensures a[i] == (b + last)[i] {
        if i < |b| {
          assert idx[i] == idx'[i];
        }
      }
      assert a == b + last;
    } else {
      assert idx == idx';
      assert a == b;
    }
  }

  /** With an anchor first accepting the record at `a`, the frames before it are
      dropped and every later frame that is not a proxy is kept. */
  lemma {:induction false} KeptFromAnchor(records: seq<RawRecord>, n: nat, a: nat, anchor: Anchor, build: Builder)
    requires n <= |records| && Buildable(records, n, build)
    requires AcceptedAt(records, a, anchor, build)
    requires forall j :: 0 <= j < a ==> !AcceptedAt(records, j, anchor, build)
    ensures n <= a ==> Kept(records, n, Some(anchor), build) == []
    ensures n > a ==> Kept(records, n, Some(anchor), build) == Between(records, a, n, build)
  {
    if n > 0 {
      assert Buildable(records, n - 1, build);
      KeptFromAnchor(records, n - 1, a, anchor, build);
      SeenFrom(records, n, a, anchor, build);
      if n > a {
        if n - 1 == a {
          assert NonProxyIndices(records, a, n - 1) == [];
        }
        BetweenStep(records, a, n, build);
      }
    }
  }

  /** The anchor counts as seen after `n` records exactly when `n` passes the
      first record it accepts. */
  lemma SeenFrom(records: seq<RawRecord>, n: nat, a: nat, anchor: Anchor, build: Builder)
    requires AcceptedAt(records, a, anchor, build)
    requires forall j :: 0 <= j < a ==> !AcceptedAt(records, j, anchor, build)
    ensures AnchorSeen(records, n, Some(anchor), build) <==> n > a
  {
  }

  /** An anchor that accepts no frame keeps nothing. */
  lemma {:induction false} NeverAcceptedKeepsNothing(records: seq<RawRecord>, n: nat, anchor: Anchor, build: Builder)
    requires n <= |records| && Buildable(records, n, build)
    requires forall j :: 0 <= j < n ==> !AcceptedAt(records, j, anchor, build)
    ensures Kept(records, n, Some(anchor), build) == []
  {
    if n > 0 {
      assert Buildable(records, n - 1, build);
      NeverAcceptedKeepsNothing(records, n - 1, anchor, build);
      assert !AnchorSeen(records, n, Some(anchor), build);
    }
  }

  /** An empty backtrace, or one of proxies only, gives an empty stack. */
  lemma OnlyProxiesIsEmpty(records: seq<RawRecord>, anchor: Option<Anchor>, build: Builder)
    requires forall j :: 0 <= j < |records| ==> IsProxy(records[j]) == Ok(true)
    ensures Assemble(records, anchor, build) == Err(EmptyStack)
  {
    assert Buildable(records, |records|, build);
    OnlyProxiesKeepNothing(records, |records|, anchor, build);
    AssembleIsKept(records, anchor, build);
  }

  lemma {:induction false} OnlyProxiesKeepNothing(records: seq<RawRecord>, n: nat, anchor: Option<Anchor>, build: Builder)
    requires n <= |records|
    requires forall j :: 0 <= j < |records| ==> IsProxy(records[j]) == Ok(true)
    ensures Buildable(records, n, build) && Kept(records, n, anchor, build) == []
  {
    if n > 0 {
      OnlyProxiesKeepNothing(records, n - 1, anchor, build);
    }
  }

  /** The frame of a record that is not a proxy has the record's own file and
      line as its call site and the carried ones as its location. */
  lemma FrameAtLocations(records: seq<RawRecord>, j: nat, rt: Runtime)
    requires j < |records| && FrameAt(records, j, FrameBuilder(rt)).Ok?
    ensures FrameAt(records, j, FrameBuilder(rt)).value.callSite == ExtractLocation(records[j].file, records[j].line)
    ensures FrameAt(records, j, FrameBuilder(rt)).value.location ==
            ExtractLocation(PrevFileLine(records, j).0, PrevFileLine(records, j).1)
  {
  }

  // ---------------------------------------------------------------------------
  // Exceptions

  /** What `fromException` reads of a `Throwable`. */
  datatype ExceptionRecord = ExceptionRecord(
    className: string,   // `get_class($e)`
    file: string,        // `getFile()`
    line: int,           // `getLine()`
    message: Value,      // `getMessage()`
    code: Value,         // `getCode()`
    previous: Value)     // `getPrevious()`

  /** The record built for the exception's own frame: its constructor, called
      where the exception was raised. */
  function ExceptionFrameRecord(e: ExceptionRecord): (r: RawRecord)
    ensures r.callee == VString("__construct") && r.className == VString(e.className) && r.callType == VString("->")
    ensures r.callFile == VString(e.file) && r.callLine == VInt(e.line) && r.file.VNull? && r.line.VNull?
    ensures r.args == Some([(IntKey(0), e.message), (IntKey(1), e.code), (IntKey(2), e.previous)])
  {
    RawRecord(VString("__construct"), VString(e.className), VString("->"), VNull, VNull,
              VString(e.file), VInt(e.line),
              Some([(IntKey(0), e.message), (IntKey(1), e.code), (IntKey(2), e.previous)]))
  }

  /** Whether reflection knows the exception's class. A class named by
      `get_class` of a live object always exists, so only the model's runtime
      can lack it. */
  predicate ExceptionClassKnown(e: ExceptionRecord, rt: Runtime) {
    !(Create(e.className).Native? && rt.classes(e.className).None?)
  }

  /** That record gives a frame exactly when reflection knows the class: the
      exception class's `__construct`, located at the raise point, without
      location. Otherwise reading its reflection throws. */
  lemma ExceptionFrameBuilds(e: ExceptionRecord, rt: Runtime)
    ensures FromRecord(ExceptionFrameRecord(e), rt).Ok? <==> ExceptionClassKnown(e, rt)
    ensures !ExceptionClassKnown(e, rt) ==> FromRecord(ExceptionFrameRecord(e), rt) == Err(ReflectionFailure)
    ensures ExceptionClassKnown(e, rt) ==>
            var f := FromRecord(ExceptionFrameRecord(e), rt).value;
            f.func == ObjectMethod(Create(e.className), "__construct") &&
            f.callSite == Some(NewLocation(e.file, e.line, None)) && f.location.None?
  {
    var rec := ExceptionFrameRecord(e);
    SplitLeavesName("__construct");
    assert !StartsWith("__construct", "{closure") by {
      assert "__construct"[0] != "{closure"[0];
    }
    assert !IsMagicCall("__construct");
  }

  function ExceptionFrame(e: ExceptionRecord, rt: Runtime): (f: Frame)
    requires ExceptionClassKnown(e, rt)
    ensures f.func == ObjectMethod(Create(e.className), "__construct")
    ensures f.callSite == Some(NewLocation(e.file, e.line, None)) && f.location.None?
    ensures f.arguments.values ==
            ArgumentValues([(IntKey(0), e.message), (IntKey(1), e.code), (IntKey(2), e.previous)],
                           FunctionReflection(f.func, rt))
  {
    ExceptionFrameBuilds(e, rt);
    SplitLeavesName("__construct");
    FromRecord(ExceptionFrameRecord(e), rt).value
  }

  // ---------------------------------------------------------------------------
  // Rendering

  /** The label of frame `k` of `n`: the number `n - k`, padded on the left to the
      width of `n + 1`. */
  function Label(n: nat, k: nat): string
    requires k < n
  {
    PadLeft(IntToString(n - k), |IntToString(n + 1)|, ' ')
  }

  /** Every label of a trace has the same width, that of `n + 1`, made of
      spaces and then the decimal number. */
  lemma LabelShape(n: nat, k: nat)
    requires k < n
    ensures |Label(n, k)| == |NatToString(n + 1)|
    ensures forall i :: 0 <= i < |Label(n, k)| - |NatToString(n - k)| ==> Label(n, k)[i] == ' '
    ensures EndsWith(Label(n, k), NatToString(n - k))
    ensures DigitsValue(Label(n, k)[|Label(n, k)| - |NatToString(n - k)|..]) == n - k
  {
    NatToStringMonotone(n - k, n + 1);
    NatToStringRoundTrip(n - k);
  }

  /** Which frames a rendering shows, and the text of each. The lines are
      stated for any choice; `render` shows the frames its options let through,
      none without options, and renders each in the options' argument format. */
  type Shows = Frame -> bool
  type Texts = Frame -> string

  function ShowsFor(options: Option<ViewOptions>, rt: Runtime): (shows: Shows)
    ensures forall f :: shows(f) <==> options.Some? && Filter(options.value, f, rt)
  {
    f => options.Some? && Filter(options.value, f, rt)
  }

  function TextsFor(options: Option<ViewOptions>, settings: RenderSettings, rt: Runtime): (texts: Texts)
    ensures forall f :: texts(f) == Frames.Rendered(f, options.GetOr(Default()).argumentFormat, settings, rt)
  {
    f => Frames.Rendered(f, options.GetOr(Default()).argumentFormat, settings, rt)
  }

  /** The line frame `k` contributes: nothing when it is not shown, else the
      label, ": ", the frame's text and a newline. */
  function Line(frames: seq<Frame>, k: nat, shows: Shows, texts: Texts): (r: string)
    requires k < |frames|
    ensures |r| == 0 <==> !shows(frames[k])
  {
    if !shows(frames[k]) then "" else Label(|frames|, k) + ": " + texts(frames[k]) + "\n"
  }

  /** A shown frame's line starts with its label and ends with its text. */
  lemma LineShape(frames: seq<Frame>, k: nat, shows: Shows, texts: Texts)
    requires k < |frames| && shows(frames[k])
    ensures StartsWith(Line(frames, k, shows, texts), Label(|frames|, k) + ": ")
    ensures EndsWith(Line(frames, k, shows, texts), texts(frames[k]) + "\n")
  {
    var head := Label(|frames|, k) + ": ";
    var tail := texts(frames[k]) + "\n";
    Regroup(head, texts(frames[k]), "\n");
    ConcatEnds(head, tail);
  }

  /** The line of a shown frame, written out. */
  lemma LineShown(frames: seq<Frame>, k: nat, shows: Shows, texts: Texts)
    requires k < |frames| && shows(frames[k])
    ensures Line(frames, k, shows, texts) ==
            PadLeft(IntToString(|frames| - k), |IntToString(|frames| + 1)|, ' ') + ": " + texts(frames[k]) + "\n"
  {
  }

  /** The lines of the first `k` frames. */
  function TextUpTo(frames: seq<Frame>, k: nat, shows: Shows, texts: Texts): string
    requires k <= |frames|
  {
    if k == 0 then "" else TextUpTo(frames, k - 1, shows, texts) + Line(frames, k - 1, shows, texts)
  }

  /** What `render($options)` gives for a trace of these frames. */
  function TraceText(frames: seq<Frame>, options: Option<ViewOptions>, settings: RenderSettings,
                     rt: Runtime): string
  {
    TextUpTo(frames, |frames|, ShowsFor(options, rt), TextsFor(options, settings, rt))
  }

  /** Frames that are not shown leave no line: when none is, the text is empty. */
  lemma {:induction false} NothingShownNoText(frames: seq<Frame>, k: nat, shows: Shows, texts: Texts)
    requires k <= |frames|
    requires forall i :: 0 <= i < k ==> !shows(frames[i])
    ensures TextUpTo(frames, k, shows, texts) == ""
  {
    if k > 0 {
      NothingShownNoText(frames, k - 1, shows, texts);
      assert Line(frames, k - 1, shows, texts) == "";
    }
  }

  /** Without options, or with filters that reject every frame, the text is empty. */
  lemma NoOptionsNoText(frames: seq<Frame>, options: Option<ViewOptions>, settings: RenderSettings, rt: Runtime)
    requires options.None? || forall i :: 0 <= i < |frames| ==> !Filter(options.value, frames[i], rt)
    ensures TraceText(frames, options, settings, rt) == ""
  {
    NothingShownNoText(frames, |frames|, ShowsFor(options, rt), TextsFor(options, settings, rt));
  }

  /** The number of lines, one per shown frame. */
  function ShownCount(frames: seq<Frame>, k: nat, shows: Shows): (c: nat)
    requires k <= |frames|
    ensures c <= k
  {
    if k == 0 then 0 else ShownCount(frames, k - 1, shows) + (if shows(frames[k - 1]) then 1 else 0)
  }

  /** With options that have no filters every frame is shown. */
  lemma {:induction false} UnfilteredShowsAll(frames: seq<Frame>, k: nat, options: ViewOptions, rt: Runtime)
    requires k <= |frames| && |options.filters| == 0
    ensures ShownCount(frames, k, ShowsFor(Some(options), rt)) == k
  {
    if k > 0 {
      UnfilteredShowsAll(frames, k - 1, options, rt);
    }
  }

  /** The loop of `render` as it runs: count down from the number of frames,
      skip a frame the options do not let through, else append its labelled line.
      `shows` is `$options?->filter(...)` and `texts` is `$frame->render(...)`. */
  method RenderLines(frames: seq<Frame>, shows: Shows, texts: Texts) returns (r: string)
    ensures r == TextUpTo(frames, |frames|, shows, texts)
  {
    r := "";
    var count := |frames| + 1;
    var pad := |IntToString(count)|;
    for k := 0 to |frames|
      invariant r == TextUpTo(frames, k, shows, texts)
      invariant count == |frames| + 1 - k
    {
      count := count - 1;
      if !shows(frames[k]) {
        continue;
      }
      var frameString := texts(frames[k]);
      var line := PadLeft(IntToString(count), pad, ' ') + ": " + frameString + "\n";
      LineShown(frames, k, shows, texts);
      r := r + line;
    }
  }

  // ---------------------------------------------------------------------------
  // The trace object

  /** A stack trace: its frames, innermost first. Only `shift` and the frame
      `fromException` prepends change them after construction. */
  class Trace {
    var frames: seq<Frame>

    /** `new Trace(...$frames)`: the frames appended one by one. */
    constructor (given: seq<Frame>)
      ensures frames == given
    {
      var acc: seq<Frame> := [];
      for i := 0 to |given|
        invariant acc == given[..i]
      {
        acc := acc + [given[i]];
      }
      assert acc == given;
      frames := acc;
    }

    /** `Trace::fromDebugBacktrace($trace, $anchor)`. */
    static method FromDebugBacktrace(records: seq<RawRecord>, anchor: Option<Anchor>, rt: Runtime)
      returns (r: Result<Trace>)
      ensures Assemble(records, anchor, FrameBuilder(rt)).Err? ==> r.Err? && r.error == Assemble(records, anchor, FrameBuilder(rt)).error
      ensures Assemble(records, anchor, FrameBuilder(rt)).Ok? ==>
                r.Ok? && fresh(r.value) && r.value.frames == Assemble(records, anchor, FrameBuilder(rt)).value
      ensures r.Ok? ==> |r.value.frames| > 0
    {
      var frames := AssembleFrames(records, anchor, FrameBuilder(rt));
      if frames.Err? {
        return Err(frames.error);
      }
      var t := new Trace(frames.value);
      return Ok(t);
    }

    /** `Trace::create($anchor)` over the backtrace the runtime gives, with the
        anchor adjusted for the frame of `create` itself. */
    static method Create(records: seq<RawRecord>, anchor: Option<Anchor>, rt: Runtime) returns (r: Result<Trace>)
      ensures Assemble(records, Some(CreateAnchor(anchor)), FrameBuilder(rt)).Err? ==>
                r.Err? && r.error == Assemble(records, Some(CreateAnchor(anchor)), FrameBuilder(rt)).error
      ensures Assemble(records, Some(CreateAnchor(anchor)), FrameBuilder(rt)).Ok? ==>
                r.Ok? && fresh(r.value) && r.value.frames == Assemble(records, Some(CreateAnchor(anchor)), FrameBuilder(rt)).value
    {
      r := FromDebugBacktrace(records, Some(CreateAnchor(anchor)), rt);
    }

    /** `Trace::fromException($e, $anchor)`: the trace of the exception's own
        backtrace with one frame put in front, that of the exception's
        constructor. */
    static method FromException(e: ExceptionRecord, records: seq<RawRecord>, anchor: Option<Anchor>, rt: Runtime)
      returns (r: Result<Trace>)
      ensures Assemble(records, anchor, FrameBuilder(rt)).Err? ==> r.Err? && r.error == Assemble(records, anchor, FrameBuilder(rt)).error
      ensures Assemble(records, anchor, FrameBuilder(rt)).Ok? && !ExceptionClassKnown(e, rt) ==> r == Err(ReflectionFailure)
      ensures Assemble(records, anchor, FrameBuilder(rt)).Ok? && ExceptionClassKnown(e, rt) ==>
                r.Ok? && fresh(r.value) && r.value.frames == [ExceptionFrame(e, rt)] + Assemble(records, anchor, FrameBuilder(rt)).value
    {
      r := FromDebugBacktrace(records, anchor, rt);
      if r.Err? {
        return;
      }
      var t := r.value;
      var built := Frames.FromDebugBacktrace(ExceptionFrameRecord(e), rt);
      ExceptionFrameBuilds(e, rt);
      if built.Err? {
        return Err(built.error);
      }
      t.frames := [built.value] + t.frames;
    }

    /** `count()`. */
    function Count(): (n: nat)
      reads this
      ensures n == |frames|
    {
      |frames|
    }

    /** `getFrame($offset)` and `offsetGet($offset)`: the frame at that position,
        none out of range. */
    function GetFrame(offset: int): (r: Option<Frame>)
      reads this
      ensures r.Some? <==> 0 <= offset < |frames|
      ensures r.Some? ==> r.value == frames[offset]
    {
      if 0 <= offset < |frames| then Some(frames[offset]) else None
    }

    /** `getFirstFrame()`. */
    function GetFirstFrame(): (r: Option<Frame>)
      reads this
      ensures r.Some? <==> |frames| > 0
      ensures r.Some? ==> r.value == frames[0]
    {
      GetFrame(0)
    }

    /** `offsetExists($offset)`. */
    function OffsetExists(offset: int): (r: bool)
      reads this
      ensures r <==> GetFrame(offset).Some?
    {
      0 <= offset < |frames|
    }

    /** The `location` property: the first frame's location. */
    function Location(): (r: Option<Locations.Location>)
      reads this
      ensures |frames| == 0 ==> r.None?
      ensures |frames| > 0 ==> r == frames[0].location
    {
      match GetFirstFrame()
      case None => None
      case Some(f) => f.location
    }

    /** `shift()`: removes and gives the first frame; nothing on an empty trace. */
    method Shift() returns (r: Option<Frame>)
      modifies this
      ensures old(|frames|) == 0 ==> r.None? && frames == old(frames)
      ensures old(|frames|) > 0 ==> r == Some(old(frames)[0]) && frames == old(frames)[1..]
      ensures Count() == if old(|frames|) == 0 then 0 else old(|frames|) - 1
    {
      if |frames| == 0 {
        return None;
      }
      r := Some(frames[0]);
      frames := frames[1..];
    }

    /** `offsetSet($offset, $value)`: a trace cannot be changed by index. */
    method OffsetSet(offset: int, value: Frame) returns (r: Error)
      ensures r == ImmutableTrace
    {
      r := ImmutableTrace;
    }

    /** `offsetUnset($offset)`: a trace cannot be changed by index. */
    method OffsetUnset(offset: int) returns (r: Error)
      ensures r == ImmutableTrace
    {
      r := ImmutableTrace;
    }

    /** `render($options)`: each frame that passes the filters on its own line,
        labelled by a number counting down from the frame count. */
    method Render(options: Option<ViewOptions>, settings: RenderSettings, rt: Runtime) returns (r: string)
      ensures r == TraceText(frames, options, settings, rt)
    {
      r := RenderLines(frames, ShowsFor(options, rt), TextsFor(options, settings, rt));
    }
  }
}
