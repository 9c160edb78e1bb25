/** Anchors: where a trace starts. The first frame an anchor accepts, by its
    raw index in the backtrace or by the frame itself, opens the trace. */
module Anchors {
  import opened Outcomes
  import opened ClassIdentifiers
  import opened FunctionIdentifiers
  import opened Frames

  datatype Anchor =
    | Rewind(offset: int)                       // `Anchor\Rewind`
    | ClassAnchor(classes: seq<ClassIdentifier>) // `Anchor\ClassIdentifier`
    | FunctionAnchor(ids: seq<FunctionId>)       // `Anchor\FunctionIdentifier`

  /** `new Anchor\ClassIdentifier(...$identifiers)`: names converted, in order. */
  function NewClassAnchor(specs: seq<ClassSpec>): (r: Anchor)
    ensures r.ClassAnchor? && |r.classes| == |specs|
    ensures forall i :: 0 <= i < |specs| && specs[i].ClassName? ==> r.classes[i] == Create(specs[i].name)
    ensures forall i :: 0 <= i < |specs| && specs[i].ClassId? ==> r.classes[i] == specs[i].id
  {
    ClassAnchor(ResolveAll(specs))
  }

  /** `accepts($offset, $frame)`: a rewind accepts the index from its offset on;
      a class anchor accepts a method frame of a listed class; a function anchor
      a frame whose function equals a listed one. */
  predicate Accepts(a: Anchor, index: int, frame: Frame) {
    match a
    case Rewind(offset) => index >= offset
    case ClassAnchor(classes) => OfClass(frame, classes)
    case FunctionAnchor(ids) => FunctionIdentifiers.EqualsAny(frame.func, ids)
  }

  /** A rewind looks only at the index, and, once it accepts, accepts every
      later index; an offset of zero or less accepts every index. */
  lemma RewindByIndex(offset: int, i: int, j: int, f: Frame, g: Frame)
    ensures Accepts(Rewind(offset), i, f) == Accepts(Rewind(offset), i, g)
    ensures Accepts(Rewind(offset), i, f) && i <= j ==> Accepts(Rewind(offset), j, f)
    ensures offset <= 0 && i >= 0 ==> Accepts(Rewind(offset), i, f)
    ensures Accepts(Rewind(offset), i, f) <==> i >= offset
  {
  }

  /** A class anchor ignores the index, never accepts a frame that is not a
      method, and accepts a method frame exactly when its class equals a listed
      one; with nothing listed it accepts nothing. */
  lemma ClassAnchorAccepts(classes: seq<ClassIdentifier>, i: int, j: int, f: Frame)
    ensures Accepts(ClassAnchor(classes), i, f) == Accepts(ClassAnchor(classes), j, f)
    ensures !IsMethod(f.func) ==> !Accepts(ClassAnchor(classes), i, f)
    ensures IsMethod(f.func) ==>
              (Accepts(ClassAnchor(classes), i, f) <==>
                 exists k :: 0 <= k < |classes| && ClassIdentifiers.Equals(f.func.cls, classes[k]))
    ensures |classes| == 0 ==> !Accepts(ClassAnchor(classes), i, f)
  {
  }

  /** A function anchor ignores the index and accepts exactly the frames whose
      function equals a listed one; with nothing listed it accepts nothing. */
  lemma FunctionAnchorAccepts(ids: seq<FunctionId>, i: int, j: int, f: Frame)
    ensures Accepts(FunctionAnchor(ids), i, f) == Accepts(FunctionAnchor(ids), j, f)
    ensures Accepts(FunctionAnchor(ids), i, f) <==>
              exists k :: 0 <= k < |ids| && FunctionIdentifiers.Equals(f.func, ids[k])
    ensures |ids| == 0 ==> !Accepts(FunctionAnchor(ids), i, f)
  {
  }

  /** The identifiers' order and repetitions do not matter: anchors listing the
      same identifiers accept the same frames. */
  lemma AnchorOrderIrrelevant(a: Anchor, b: Anchor, i: int, f: Frame)
    requires (a.ClassAnchor? && b.ClassAnchor? && forall x :: x in a.classes <==> x in b.classes) ||
             (a.FunctionAnchor? && b.FunctionAnchor? && forall x :: x in a.ids <==> x in b.ids)
    ensures Accepts(a, i, f) == Accepts(b, i, f)
  {
    if a.ClassAnchor? {
      ClassListsAlike(f, a.classes, b.classes);
      ClassListsAlike(f, b.classes, a.classes);
    } else {
      FunctionListsAlike(f, a.ids, b.ids);
      FunctionListsAlike(f, b.ids, a.ids);
    }
  }

  lemma ClassListsAlike(f: Frame, xs: seq<ClassIdentifier>, ys: seq<ClassIdentifier>)
    requires forall x :: x in xs ==> x in ys
    ensures OfClass(f, xs) ==> OfClass(f, ys)
  {
    if OfClass(f, xs) {
      var k :| 0 <= k < |xs| && ClassIdentifiers.Equals(f.func.cls, xs[k]);
      assert xs[k] in ys;
      var m :| 0 <= m < |ys| && ys[m] == xs[k];
    }
  }

  lemma FunctionListsAlike(f: Frame, xs: seq<FunctionId>, ys: seq<FunctionId>)
    requires forall x :: x in xs ==> x in ys
    ensures FunctionIdentifiers.EqualsAny(f.func, xs) ==> FunctionIdentifiers.EqualsAny(f.func, ys)
  {
    if FunctionIdentifiers.EqualsAny(f.func, xs) {
      var k :| 0 <= k < |xs| && FunctionIdentifiers.Equals(f.func, xs[k]);
      assert xs[k] in ys;
      var m :| 0 <= m < |ys| && ys[m] == xs[k];
    }
  }

  /** The anchor `Trace::create` passes on: none becomes a rewind by one (the
      frame of `create` itself); a rewind is replaced by a copy one further back,
      the caller's anchor staying as it was; any other anchor is used as given. */
  function CreateAnchor(a: Option<Anchor>): (r: Anchor)
    ensures a.None? ==> r == Rewind(1)
    ensures a.Some? && a.value.Rewind? ==> r == Rewind(a.value.offset + 1)
    ensures a.Some? && !a.value.Rewind? ==> r == a.value
  {
    match a
    case None => Rewind(1)
    case Some(Rewind(offset)) => Rewind(offset + 1)
    case Some(other) => other
  }

  /** The adjusted rewind accepts an index exactly when the original accepted the
      index before it: the frame of `create` is discounted. */
  lemma CreateAnchorShifts(a: Option<Anchor>, i: int, f: Frame)
    requires a.None? || a.value.Rewind?
    ensures Accepts(CreateAnchor(a), i + 1, f) <==> Accepts(a.GetOr(Rewind(0)), i, f)
  {
  }
}
