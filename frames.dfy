/** Stack frames: how a raw backtrace record becomes a typed frame, which
    identifiers a frame matches, and how a frame is rendered. */
module Frames {
  import opened Outcomes
  import opened Text
  import opened PhpValues
  import opened Locations
  import opened Reflection
  import opened ClassIdentifiers
  import opened FunctionIdentifiers
  import opened Arguments

  /** A record of `debug_backtrace()` with the keys the engine reads. An absent
      key and a null value are both `VNull`, as `isset` and `??` make them alike. */
  datatype RawRecord = RawRecord(
    callee: Value,             // 'function'
    className: Value,          // 'class'
    callType: Value,           // 'type'
    file: Value,
    line: Value,
    callFile: Value,
    callLine: Value,
    args: Option<Entries>)     // 'args', when it is set

  datatype Frame = Frame(
    func: FunctionId,
    arguments: ArgumentList,
    callSite: Option<Location>,
    location: Option<Location>)

  // ---------------------------------------------------------------------------
  // From a raw record

  /** The callee's name: the record's string, else `{closure}`. */
  function CalleeName(rec: RawRecord): (r: string)
    ensures rec.callee.VString? ==> r == rec.callee.s
    ensures !rec.callee.VString? ==> r == "{closure}"
  {
    if rec.callee.VString? then rec.callee.s else "{closure}"
  }

  /** The class, when the record names one by a string. */
  function RecordClass(rec: RawRecord): (r: Option<ClassIdentifier>)
    ensures rec.className.VString? ==> r == Some(Create(rec.className.s))
    ensures !rec.className.VString? ==> r.None?
  {
    if rec.className.VString? then Some(Create(rec.className.s)) else None
  }

  /** The namespace split as the code has it: `str_contains('\\', $function)` asks
      whether the name occurs inside a lone backslash, not the other way round.
      When it fires the name is exploded at backslashes; its last piece is the
      name and the others, if any, joined again, the namespace. */
  function SplitNamespace(name: string): (r: (string, Option<string>))
    ensures !Contains("\\", name) ==> r == (name, None)
  {
    if Contains("\\", name) then
      var parts := Explode(name, '\\');
      var init := parts[..|parts| - 1];
      (parts[|parts| - 1], if |init| > 0 then Some(Join(init, "\\")) else None)
    else (name, None)
  }

  /** The guard fires for exactly two names: the empty one and a lone backslash. */
  lemma NamespaceGuardFires(name: string)
    ensures Contains("\\", name) <==> name == "" || name == "\\"
  {
    ContainsIffOccurs("\\", name);
    if Contains("\\", name) {
      var i :| 0 <= i <= 1 && StartsWith("\\"[i..], name);
      if i == 1 {
        assert |name| == 0;
      }
    }
    if name == "" {
      assert StartsWith("\\"[0..], name);
    }
    if name == "\\" {
      assert "\\"[0..] == name;
    }
  }

  /** So the split leaves every other name alone (a namespaced name like
      `Foo\bar` stays whole), empties the name of a lone backslash into an empty
      namespace, and keeps the empty name without namespace. */
  lemma SplitNamespaceAsWritten(name: string)
    ensures name != "" && name != "\\" ==> SplitNamespace(name) == (name, None)
    ensures SplitNamespace("\\") == ("", Some(""))
    ensures SplitNamespace("") == ("", None)
  {
    NamespaceGuardFires(name);
    NamespaceGuardFires("\\");
    NamespaceGuardFires("");
    assert Explode("\\", '\\') == ["", ""] by {
      assert "\\"[1..] == "";
    }
  }

  /** The class of function identifier a record calls for. */
  datatype Kind = StaticKind | ObjectKind | NamespaceKind | GlobalKind | ClosureKind

  /** The `switch ($frame['type'])` arms. The switch compares loosely, so `true`
      matches the first arm; no other non-string value matches either. */
  function TypeArm(t: Value): (r: Option<Kind>)
    ensures r == Some(StaticKind) <==> t == VString("::") || t == VBool(true)
    ensures r == Some(ObjectKind) <==> t == VString("->")
    ensures r.Some? ==> r.value == StaticKind || r.value == ObjectKind
  {
    if t == VString("::") || t == VBool(true) then Some(StaticKind)
    else if t == VString("->") then Some(ObjectKind)
    else None
  }

  /** The kind: from `type` when it is set, else namespaced or global by whether
      a namespace was split off; a name starting with `{closure` overrides all. */
  function KindOf(rec: RawRecord, name: string, namespace: Option<string>): (r: Option<Kind>)
    ensures StartsWith(name, "{closure") ==> r == Some(ClosureKind)
    ensures !StartsWith(name, "{closure") && !rec.callType.VNull? ==> r == TypeArm(rec.callType)
    ensures !StartsWith(name, "{closure") && rec.callType.VNull? ==>
              r == Some(if namespace.Some? then NamespaceKind else GlobalKind)
  {
    if StartsWith(name, "{closure") then Some(ClosureKind)
    else if !rec.callType.VNull? then TypeArm(rec.callType)
    else if namespace.Some? then Some(NamespaceKind)
    else Some(GlobalKind)
  }

  predicate IsMagicCall(name: string) { name == "__callStatic" || name == "__call" }

  /** The arguments and the final callee name: for `__call` and `__callStatic`
      the first argument is shifted off and becomes the name. */
  function ShiftMagic(name: string, args: Entries): (r: (Value, Entries))
    ensures !IsMagicCall(name) ==> r == (VString(name), args)
    ensures IsMagicCall(name) ==> r == ArrayShift(args)
  {
    if IsMagicCall(name) then ArrayShift(args) else (VString(name), args)
  }

  /** The function identifier the `match ($type)` builds, or the exception it
      throws: a missing class first, then a name that is not a string. */
  function BuildFunction(kind: Option<Kind>, cls: Option<ClassIdentifier>, namespace: Option<string>,
                         name: Value, rt: Runtime): (r: Result<FunctionId>)
    ensures kind.None? ==> r == Err(InvalidFunctionType)
    ensures kind == Some(StaticKind) || kind == Some(ObjectKind) ==>
              (cls.None? ==> r == Err(ClassRequired)) &&
              (cls.Some? && !name.VString? ==> r == Err(TypeError))
    ensures kind == Some(NamespaceKind) && namespace.None? ==> r == Err(NamespaceRequired)
    ensures r.Ok? ==> name.VString? && FunctionIdentifiers.Name(r.value) == (if kind == Some(ClosureKind) then "{closure}" else name.s)
    ensures r.Ok? && kind == Some(StaticKind) ==> r.value == StaticMethod(cls.value, name.s)
    ensures r.Ok? && kind == Some(ObjectKind) ==> r.value == ObjectMethod(cls.value, name.s)
    ensures r.Ok? && kind == Some(NamespaceKind) ==> namespace.Some? && r.value == NamespaceFunction(namespace.value, name.s)
    ensures r.Ok? && kind == Some(GlobalKind) ==> r.value == GlobalFunction(name.s)
    ensures r.Ok? && kind == Some(ClosureKind) ==> r.value == FromFunctionString(name.s, rt)
  {
    match kind
    case None => Err(InvalidFunctionType)
    case Some(StaticKind) =>
      if cls.None? then Err(ClassRequired)
      else if !name.VString? then Err(TypeError)
      else Ok(StaticMethod(cls.value, name.s))
    case Some(ObjectKind) =>
      if cls.None? then Err(ClassRequired)
      else if !name.VString? then Err(TypeError)
      else Ok(ObjectMethod(cls.value, name.s))
    case Some(NamespaceKind) =>
      if namespace.None? then Err(NamespaceRequired)
      else if !name.VString? then Err(TypeError)
      else Ok(NamespaceFunction(namespace.value, name.s))
    case Some(GlobalKind) =>
      if !name.VString? then Err(TypeError) else Ok(GlobalFunction(name.s))
    case Some(ClosureKind) =>
      if !name.VString? then Err(TypeError) else Ok(FromFunctionString(name.s, rt))
  }

  /** `extractLocation`: a location only when the file is a string and the line
      an integer. */
  function ExtractLocation(file: Value, line: Value): (r: Option<Location>)
    ensures r.Some? <==> file.VString? && line.VInt?
    ensures r.Some? ==> r.value == NewLocation(file.s, line.i, None)
  {
    if file.VString? && line.VInt? then Some(NewLocation(file.s, line.i, None)) else None
  }

  /** The argument values the constructor of `ArgumentList` stores. */
  function ArgumentValues(values: Entries, reflection: Option<FunctionInfo>): Entries {
    if reflection.None? then values else Rekeyed(values, reflection.value.parameters)
  }

  /** `Frame::fromDebugBacktrace`, step by step as the code takes them. */
  function FromRecord(rec: RawRecord, rt: Runtime): (r: Result<Frame>)
    ensures r.Ok? ==> r.value.callSite == ExtractLocation(rec.callFile, rec.callLine)
    ensures r.Ok? ==> r.value.location == ExtractLocation(rec.file, rec.line)
    ensures r.Ok? ==>
              r.value.arguments.values == ArgumentValues(ShiftMagic(SplitNamespace(CalleeName(rec)).0,
                                                                    rec.args.GetOr([])).1,
                                                         FunctionReflection(r.value.func, rt))
    ensures r.Ok? ==> !ReflectionThrows(r.value.func, rt)
  {
    var name := CalleeName(rec);
    var cls := RecordClass(rec);
    var (baseName, namespace) := SplitNamespace(name);
    var kind := KindOf(rec, baseName, namespace);
    var (finalName, args) := ShiftMagic(baseName, rec.args.GetOr([]));
    match BuildFunction(kind, cls, namespace, finalName, rt)
    case Err(e) => Err(e)
    case Ok(f) =>
      if ReflectionThrows(f, rt) then Err(ReflectionFailure)
      else Ok(Frame(f, ArgumentList(ArgumentValues(args, FunctionReflection(f, rt))),
                    ExtractLocation(rec.callFile, rec.callLine), ExtractLocation(rec.file, rec.line)))
  }

  /** `Frame::fromDebugBacktrace` as the code runs it, with the argument list
      built by its constructor's loop. */
  method FromDebugBacktrace(rec: RawRecord, rt: Runtime) returns (r: Result<Frame>)
    ensures r == FromRecord(rec, rt)
  {
    var name := CalleeName(rec);
    var cls := RecordClass(rec);
    var namespace: Option<string> := None;
    if Contains("\\", name) {
      var parts := Explode(name, '\\');
      name := parts[|parts| - 1];
      parts := parts[..|parts| - 1];
      if |parts| > 0 {
        namespace := Some(Join(parts, "\\"));
      }
    }
    var kind := KindOf(rec, name, namespace);
    var arguments := rec.args.GetOr([]);
    var callee := VString(name);
    if IsMagicCall(name) {
      var shifted := ArrayShift(arguments);
      callee, arguments := shifted.0, shifted.1;
    }
    var built := BuildFunction(kind, cls, namespace, callee, rt);
    if built.Err? {
      return Err(built.error);
    }
    var f := built.value;
    if ReflectionThrows(f, rt) {
      return Err(ReflectionFailure);
    }
    var list := NewArgumentList(arguments, FunctionReflection(f, rt));
    r := Ok(Frame(f, list, ExtractLocation(rec.callFile, rec.callLine), ExtractLocation(rec.file, rec.line)));
  }

  /** A name no split touches: any name other than the empty one and '\'. */
  lemma SplitLeavesName(name: string)
    requires name != "" && name != "\\"
    ensures SplitNamespace(name) == (name, None)
  {
    SplitNamespaceAsWritten(name);
  }

  /** A name starting with `{closure` makes a closure, whatever the type and the
      class say. */
  lemma ClosureNameWins(rec: RawRecord, rt: Runtime)
    requires StartsWith(CalleeName(rec), "{closure")
    ensures FromRecord(rec, rt).Ok?
    ensures FromRecord(rec, rt).value.func == FromFunctionString(CalleeName(rec), rt)
  {
    var name := CalleeName(rec);
    assert name[0] == '{';
    SplitLeavesName(name);
    assert !IsMagicCall(name);
    assert KindOf(rec, name, None) == Some(ClosureKind);
  }

  /** A record without a string callee is a closure without location. */
  lemma MissingCalleeIsClosure(rec: RawRecord, rt: Runtime)
    requires !rec.callee.VString?
    ensures FromRecord(rec, rt).Ok? && FromRecord(rec, rt).value.func == Closure(None)
  {
    assert StartsWith("{closure}", "{closure");
    ClosureNameWins(rec, rt);
    assert !Contains("{closure}", CLOSURE_OPEN) by {
      ContainsIffOccurs("{closure}", CLOSURE_OPEN);
      assert "{closure}"[0..][8] != CLOSURE_OPEN[8];
    }
    ClosureNoOpening("{closure}", rt);
  }

  /** `type '::'` and `type '->'` give static and object methods on the record's
      class. Without a class the frame cannot be built, and neither can it when
      the class is named but reflection does not know it. */
  lemma MethodRecords(rec: RawRecord, rt: Runtime)
    requires var name := CalleeName(rec);
             name != "" && name != "\\" && !StartsWith(name, "{closure") && !IsMagicCall(name)
    requires rec.callType == VString("::") || rec.callType == VString("->")
    ensures !rec.className.VString? ==> FromRecord(rec, rt) == Err(ClassRequired)
    ensures rec.className.VString? ==>
              (FromRecord(rec, rt).Ok? <==> !(Create(rec.className.s).Native? && rt.classes(rec.className.s).None?))
    ensures rec.className.VString? && FromRecord(rec, rt).Err? ==> FromRecord(rec, rt) == Err(ReflectionFailure)
    ensures rec.className.VString? && FromRecord(rec, rt).Ok? && rec.callType == VString("::") ==>
              FromRecord(rec, rt).value.func == StaticMethod(Create(rec.className.s), CalleeName(rec))
    ensures rec.className.VString? && FromRecord(rec, rt).Ok? && rec.callType == VString("->") ==>
              FromRecord(rec, rt).value.func == ObjectMethod(Create(rec.className.s), CalleeName(rec))
  {
    SplitLeavesName(CalleeName(rec));
  }

  /** Without a type, a name is a global function, even one holding backslashes. */
  lemma UntypedIsGlobal(rec: RawRecord, rt: Runtime)
    requires var name := CalleeName(rec);
             name != "\\" && !StartsWith(name, "{closure") && !IsMagicCall(name)
    requires rec.callType.VNull?
    ensures FromRecord(rec, rt).Ok? && FromRecord(rec, rt).value.func == GlobalFunction(CalleeName(rec))
  {
    SplitNamespaceAsWritten(CalleeName(rec));
  }

  /** The one name that yields a namespaced function: a lone backslash, split
      into an empty namespace and an empty name. Its reflection is asked for
      the function `\\`, which PHP never knows, so in practice it throws. */
  lemma LoneBackslashNeedsReflection(rec: RawRecord, rt: Runtime)
    requires rec.callee == VString("\\") && rec.callType.VNull?
    ensures rt.functions("\\").None? ==> FromRecord(rec, rt) == Err(ReflectionFailure)
    ensures rt.functions("\\").Some? ==>
              FromRecord(rec, rt).Ok? && FromRecord(rec, rt).value.func == NamespaceFunction("", "")
  {
    SplitNamespaceAsWritten("\\");
    assert "" + "\\" + "" == "\\";
  }

  /** A type other than '::' and '->' (loosely compared) on a name that is no
      closure cannot be built. */
  lemma InvalidTypeRejected(rec: RawRecord, rt: Runtime)
    requires !rec.callType.VNull? && TypeArm(rec.callType).None?
    requires !StartsWith(SplitNamespace(CalleeName(rec)).0, "{closure")
    ensures FromRecord(rec, rt) == Err(InvalidFunctionType)
  {
  }

  /** For `__call` and `__callStatic` the first argument names the method and the
      rest, renumbered from zero, are its arguments; with no arguments, or a
      first argument that is not a string, the frame cannot be built, and
      neither can it for a named class reflection does not know. */
  lemma MagicCallShifts(rec: RawRecord, rt: Runtime)
    requires IsMagicCall(CalleeName(rec)) && rec.className.VString?
    requires rec.callType == VString("::") || rec.callType == VString("->")
    ensures var args := rec.args.GetOr([]);
            |args| == 0 || !args[0].1.VString? ==> FromRecord(rec, rt) == Err(TypeError)
    ensures var args := rec.args.GetOr([]);
            |args| > 0 && args[0].1.VString? && Create(rec.className.s).Native? && rt.classes(rec.className.s).None? ==>
              FromRecord(rec, rt) == Err(ReflectionFailure)
    ensures var args := rec.args.GetOr([]);
            |args| > 0 && args[0].1.VString? && !(Create(rec.className.s).Native? && rt.classes(rec.className.s).None?) ==>
              FromRecord(rec, rt).Ok? &&
              FunctionIdentifiers.Name(FromRecord(rec, rt).value.func) == args[0].1.s &&
              FromRecord(rec, rt).value.arguments.values ==
                ArgumentValues(Renumber(args[1..], 0), FunctionReflection(FromRecord(rec, rt).value.func, rt))
  {
    var name := CalleeName(rec);
    SplitLeavesName(name);
    assert name[0] == '_';
    assert !StartsWith(name, "{closure");
  }

  // ---------------------------------------------------------------------------
  // Matching

  /** An argument of `matches`: a function or a class identifier. */
  datatype Identifier = FunctionIdent(f: FunctionId) | ClassIdent(c: ClassIdentifier)

  /** The class of a method frame; other frames have none. */
  function FrameClass(frame: Frame): (r: Option<ClassIdentifier>)
    ensures r.Some? <==> IsMethod(frame.func)
    ensures r.Some? ==> r.value == frame.func.cls
  {
    if IsMethod(frame.func) then Some(frame.func.cls) else None
  }

  /** One identifier against a frame: a function identifier equal to the frame's
      function, or a class identifier equal to a method frame's class. */
  predicate MatchesOne(frame: Frame, id: Identifier) {
    match id
    case FunctionIdent(f) => FunctionIdentifiers.Equals(frame.func, f)
    case ClassIdent(c) => FrameClass(frame).Some? && ClassIdentifiers.Equals(FrameClass(frame).value, c)
  }

  /** A frame of a method on one of the listed classes: the search loop of the
      class anchor and the class filter. */
  predicate OfClass(frame: Frame, ids: seq<ClassIdentifier>) {
    IsMethod(frame.func) && ClassIdentifiers.EqualsAny(frame.func.cls, ids)
  }

  /** `matches(...$identifiers)`: the search loop with early return. */
  function Matches(frame: Frame, ids: seq<Identifier>): (r: bool)
    ensures r <==> exists i :: 0 <= i < |ids| && MatchesOne(frame, ids[i])
    ensures |ids| == 0 ==> !r
  {
    if |ids| == 0 then false
    else MatchesOne(frame, ids[0]) || Matches(frame, ids[1..])
  }

  /** Every function identifier wrapped as an argument of `matches`. */
  function AsIdentifiers(fs: seq<FunctionId>): (r: seq<Identifier>)
    ensures |r| == |fs| && forall i :: 0 <= i < |fs| ==> r[i] == FunctionIdent(fs[i])
  {
    seq(|fs|, i requires 0 <= i < |fs| => FunctionIdent(fs[i]))
  }

  /** With function identifiers only, matching is equality with one of them. */
  lemma MatchesFunctionsOnly(frame: Frame, fs: seq<FunctionId>)
    ensures Matches(frame, AsIdentifiers(fs)) == FunctionIdentifiers.EqualsAny(frame.func, fs)
  {
    var ids := AsIdentifiers(fs);
    if Matches(frame, ids) {
      var i :| 0 <= i < |ids| && MatchesOne(frame, ids[i]);
      assert FunctionIdentifiers.Equals(frame.func, fs[i]);
    }
    if FunctionIdentifiers.EqualsAny(frame.func, fs) {
      var i :| 0 <= i < |fs| && FunctionIdentifiers.Equals(frame.func, fs[i]);
      assert MatchesOne(frame, ids[i]);
    }
  }

  // ---------------------------------------------------------------------------
  // Rendering

  /** The location a frame shows: its call site, else its location. */
  function Shown(frame: Frame): (r: Option<Location>)
    ensures frame.callSite.Some? ==> r == frame.callSite
    ensures frame.callSite.None? ==> r == frame.location
  {
    if frame.callSite.Some? then frame.callSite else frame.location
  }

  const INTERNAL_GLYPH: string := "\U{25CB}"   // ○
  const VENDOR_GLYPH: string := "\U{25D2}"     // ◒
  const OUTSIDE_GLYPH: string := "\U{25D0}"    // ◐
  const PROJECT_GLYPH: string := "\U{25CF}"    // ●

  /** The mark before a located frame: internal functions first, then vendor
      files, then files outside the project root when one is set; otherwise the
      project mark. */
  function Glyph(frame: Frame, loc: Location, settings: RenderSettings, rt: Runtime): (r: string)
    ensures r == INTERNAL_GLYPH <==> IsInternal(frame.func, rt)
    ensures r == VENDOR_GLYPH <==> !IsInternal(frame.func, rt) && Contains(loc.file, "/vendor/")
    ensures r == OUTSIDE_GLYPH <==>
              !IsInternal(frame.func, rt) && !Contains(loc.file, "/vendor/") &&
              settings.rootPath.Some? && !StartsWith(loc.file, settings.rootPath.value)
    ensures r in [INTERNAL_GLYPH, VENDOR_GLYPH, OUTSIDE_GLYPH, PROJECT_GLYPH]
  {
    if IsInternal(frame.func, rt) then INTERNAL_GLYPH
    else if Contains(loc.file, "/vendor/") then VENDOR_GLYPH
    else if settings.rootPath.Some? && !StartsWith(loc.file, settings.rootPath.value) then OUTSIDE_GLYPH
    else PROJECT_GLYPH
  }

  /** What `render()` gives: the function and its arguments; when a location is
      shown, the glyph before them and the location on a second line indented
      by the gutter. */
  function Rendered(frame: Frame, format: ArgumentFormat, settings: RenderSettings, rt: Runtime): string
  {
    var head := FunctionIdentifiers.Render(frame.func, rt) +
                Arguments.Rendered(frame.arguments, Some(format), settings, rt.prettify);
    match Shown(frame)
    case None => head
    case Some(loc) =>
      Glyph(frame, loc, settings, rt) + " " + head + "\n" + Repeat(' ', settings.gutter) +
      Locations.Render(loc, rt.prettify)
  }

  /** The layout of a rendered frame. Without a location it is the function and
      its arguments alone. With one, it opens with one glyph, a space, the
      function and its arguments and a line break, and it closes with the
      gutter's spaces and the location. */
  lemma RenderedLayout(frame: Frame, format: ArgumentFormat, settings: RenderSettings, rt: Runtime)
    ensures var r := Rendered(frame, format, settings, rt);
            var head := FunctionIdentifiers.Render(frame.func, rt) +
                        Arguments.Rendered(frame.arguments, Some(format), settings, rt.prettify);
            (Shown(frame).None? ==> r == head) &&
            (Shown(frame).Some? ==>
               var g := Glyph(frame, Shown(frame).value, settings, rt);
               var loc := Locations.Render(Shown(frame).value, rt.prettify);
               |g| == 1 && StartsWith(r, g + " " + head + "\n") && EndsWith(r, Repeat(' ', settings.gutter) + loc) &&
               |r| == |g| + 1 + |head| + 1 + settings.gutter + |loc|)
  {
    if Shown(frame).Some? {
      var head := FunctionIdentifiers.Render(frame.func, rt) +
                  Arguments.Rendered(frame.arguments, Some(format), settings, rt.prettify);
      var g := Glyph(frame, Shown(frame).value, settings, rt);
      var loc := Locations.Render(Shown(frame).value, rt.prettify);
      var pad := Repeat(' ', settings.gutter);
      assert Rendered(frame, format, settings, rt) == g + " " + head + "\n" + pad + loc;
      Regroup(g + " " + head + "\n", pad, loc);
      ConcatEnds(g + " " + head + "\n", pad + loc);
    }
  }

  /** `render()`. */
  method Render(frame: Frame, format: ArgumentFormat, settings: RenderSettings, rt: Runtime) returns (r: string)
    ensures r == Rendered(frame, format, settings, rt)
  {
    r := FunctionIdentifiers.Render(frame.func, rt);
    var args := Arguments.Render(frame.arguments, Some(format), settings, rt.prettify);
    r := r + args;
    var shown := Shown(frame);
    if shown.Some? {
      r := Glyph(frame, shown.value, settings, rt) + " " + r;
      r := r + "\n" + Repeat(' ', settings.gutter) + Locations.Render(shown.value, rt.prettify);
    }
  }
}
