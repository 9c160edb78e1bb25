/** Filters: which frames a rendered trace shows. A filter accepts the frames
    it keeps. */
module Filters {
  import opened Outcomes
  import opened Text
  import opened Reflection
  import opened Locations
  import opened ClassIdentifiers
  import opened FunctionIdentifiers
  import opened Frames

  datatype Filter =
    | ClassFilter(classes: seq<ClassIdentifier>)  // `Filter\ClassIdentifier`
    | FunctionFilter(ids: seq<FunctionId>)        // `Filter\FunctionIdentifier`
    | NamespaceFilter(namespaces: seq<string>)    // `Filter\NamespaceIdentifier`
    | PathsFilter(paths: seq<string>)             // `Filter\Paths`
    | VendorFilter                                // `Filter\Vendor`

  /** `new Filter\ClassIdentifier(...$identifiers)`: names converted, in order. */
  function NewClassFilter(specs: seq<ClassSpec>): (r: Filter)
    ensures r.ClassFilter? && |r.classes| == |specs|
    ensures forall i :: 0 <= i < |specs| && specs[i].ClassName? ==> r.classes[i] == Create(specs[i].name)
    ensures forall i :: 0 <= i < |specs| && specs[i].ClassId? ==> r.classes[i] == specs[i].id
  {
    ClassFilter(ResolveAll(specs))
  }

  /** `new Filter\Paths($paths)`: each path passed through the path resolver when
      there is one, in order; without it the paths are kept verbatim. */
  method NewPathsFilter(paths: seq<string>, resolve: Option<string -> string>) returns (r: Filter)
    ensures r.PathsFilter? && |r.paths| == |paths|
    ensures resolve.None? ==> r.paths == paths
    ensures resolve.Some? ==> forall i :: 0 <= i < |paths| ==> r.paths[i] == resolve.value(paths[i])
  {
    if resolve.None? {
      return PathsFilter(paths);
    }
    var resolved: seq<string> := [];
    for i := 0 to |paths|
      invariant |resolved| == i
      invariant forall k :: 0 <= k < i ==> resolved[k] == resolve.value(paths[k])
    {
      resolved := resolved + [resolve.value(paths[i])];
    }
    r := PathsFilter(resolved);
  }

  /** Whether a namespace lies in a listed one: equal to it, or below it after
      a backslash. */
  predicate InNamespace(ns: string, listed: string) {
    ns == listed || StartsWith(ns, listed + "\\")
  }

  /** Whether a namespace lies in one of the listed ones (the search loop). */
  function InAnyNamespace(ns: string, listed: seq<string>): (r: bool)
    ensures r <==> exists i :: 0 <= i < |listed| && InNamespace(ns, listed[i])
  {
    if |listed| == 0 then false else InNamespace(ns, listed[0]) || InAnyNamespace(ns, listed[1..])
  }

  /** Whether a file lies under one of the paths. */
  function UnderAnyPath(file: string, paths: seq<string>): (r: bool)
    ensures r <==> exists i :: 0 <= i < |paths| && StartsWith(file, paths[i])
  {
    if |paths| == 0 then false else StartsWith(file, paths[0]) || UnderAnyPath(file, paths[1..])
  }

  /** `accepts($frame)`.
      - class: a method frame of a listed class is kept, every other frame dropped;
      - function: the frame is kept when it matches a listed function;
      - namespace: a frame of a namespaced function or method with a known
        namespace is dropped when it lies in a listed namespace;
      - paths: a frame whose call site lies under a listed path is dropped;
      - vendor: a frame whose call site is in a `/vendor/` directory is dropped. */
  predicate Accepts(filter: Filter, frame: Frame, rt: Runtime) {
    match filter
    case ClassFilter(classes) => OfClass(frame, classes)
    case FunctionFilter(ids) => Matches(frame, AsIdentifiers(ids))
    case NamespaceFilter(namespaces) =>
      var ns := Namespace(frame.func, rt);
      !(frame.func.NamespaceFunction? || IsMethod(frame.func)) || ns.None? || !InAnyNamespace(ns.value, namespaces)
    case PathsFilter(paths) => frame.callSite.None? || !UnderAnyPath(frame.callSite.value.file, paths)
    case VendorFilter => !Contains(if frame.callSite.Some? then frame.callSite.value.file else "", "/vendor/")
  }

  /** The class filter keeps exactly the method frames whose class equals a
      listed one; with nothing listed it keeps nothing. */
  lemma ClassFilterKeeps(classes: seq<ClassIdentifier>, frame: Frame, rt: Runtime)
    ensures !IsMethod(frame.func) ==> !Accepts(ClassFilter(classes), frame, rt)
    ensures IsMethod(frame.func) ==>
              (Accepts(ClassFilter(classes), frame, rt) <==>
                 exists k :: 0 <= k < |classes| && ClassIdentifiers.Equals(frame.func.cls, classes[k]))
    ensures |classes| == 0 ==> !Accepts(ClassFilter(classes), frame, rt)
  {
  }

  /** The function filter keeps exactly the frames whose function equals a
      listed one; with nothing listed it keeps nothing. */
  lemma FunctionFilterKeeps(ids: seq<FunctionId>, frame: Frame, rt: Runtime)
    ensures Accepts(FunctionFilter(ids), frame, rt) <==>
              exists k :: 0 <= k < |ids| && FunctionIdentifiers.Equals(frame.func, ids[k])
    ensures |ids| == 0 ==> !Accepts(FunctionFilter(ids), frame, rt)
  {
    MatchesFunctionsOnly(frame, ids);
  }

  /** The namespace filter keeps global functions, closures and frames without
      a known namespace; it drops a namespace equal to a listed one or below it;
      a listed namespace that is only a textual prefix does not drop; with
      nothing listed it keeps everything. */
  lemma NamespaceFilterKeeps(namespaces: seq<string>, frame: Frame, rt: Runtime)
    ensures frame.func.GlobalFunction? || frame.func.Closure? ==> Accepts(NamespaceFilter(namespaces), frame, rt)
    ensures Namespace(frame.func, rt).None? ==> Accepts(NamespaceFilter(namespaces), frame, rt)
    ensures |namespaces| == 0 ==> Accepts(NamespaceFilter(namespaces), frame, rt)
    ensures frame.func.NamespaceFunction? || IsMethod(frame.func) ==>
              Namespace(frame.func, rt).Some? ==>
                (!Accepts(NamespaceFilter(namespaces), frame, rt) <==>
                   exists k :: 0 <= k < |namespaces| && InNamespace(Namespace(frame.func, rt).value, namespaces[k]))
  {
  }

  /** `App\FooBar` is not in `App\Foo`, while `App\Foo` and `App\Foo\Bar` are. */
  lemma TextualPrefixIsNoNamespace()
    ensures !InNamespace("App\\FooBar", "App\\Foo")
    ensures InNamespace("App\\Foo", "App\\Foo")
    ensures InNamespace("App\\Foo\\Bar", "App\\Foo")
  {
    assert "App\\FooBar"[..8] != "App\\Foo\\" by {
      assert "App\\FooBar"[7] != "App\\Foo\\"[7];
    }
    assert "App\\Foo\\Bar"[..8] == "App\\Foo\\";
  }

  /** The paths filter keeps a frame without a call site and drops one whose
      call site lies under a listed path; with no paths it keeps everything and
      the empty path drops every frame with a call site. Only the call site is
      consulted. */
  lemma PathsFilterKeeps(paths: seq<string>, frame: Frame, rt: Runtime)
    ensures frame.callSite.None? ==> Accepts(PathsFilter(paths), frame, rt)
    ensures frame.callSite.Some? ==>
              (!Accepts(PathsFilter(paths), frame, rt) <==>
                 exists k :: 0 <= k < |paths| && StartsWith(frame.callSite.value.file, paths[k]))
    ensures |paths| == 0 ==> Accepts(PathsFilter(paths), frame, rt)
    ensures "" in paths && frame.callSite.Some? ==> !Accepts(PathsFilter(paths), frame, rt)
    ensures Accepts(PathsFilter(paths), frame, rt) == Accepts(PathsFilter(paths), frame.(location := None), rt)
  {
    if "" in paths && frame.callSite.Some? {
      var k :| 0 <= k < |paths| && paths[k] == "";
      assert StartsWith(frame.callSite.value.file, paths[k]);
    }
  }

  /** The vendor filter drops exactly the frames whose call site file contains
      `/vendor/`; a frame without a call site is kept and the location is never
      consulted. */
  lemma VendorFilterKeeps(frame: Frame, rt: Runtime)
    ensures frame.callSite.None? ==> Accepts(VendorFilter, frame, rt)
    ensures frame.callSite.Some? ==>
              (Accepts(VendorFilter, frame, rt) <==> !Contains(frame.callSite.value.file, "/vendor/"))
    ensures Accepts(VendorFilter, frame, rt) == Accepts(VendorFilter, frame.(location := None), rt)
  {
    ContainsIffOccurs("", "/vendor/");
  }

  /** A `vendor/` directory not preceded by a slash does not drop the frame. */
  lemma RelativeVendorKept(frame: Frame, rt: Runtime)
    requires frame.callSite.Some? && frame.callSite.value.file == "vendor/x.php"
    ensures Accepts(VendorFilter, frame, rt)
  {
    NoStartWithoutFirst("vendor/x.php", "/vendor/");
  }

  /** A needle whose first character occurs at no position where it would fit
      is not contained. */
  lemma {:induction false} NoStartWithoutFirst(h: string, n: string)
    requires |n| > 0
    requires forall i :: 0 <= i && i + |n| <= |h| ==> h[i] != n[0]
    ensures !Contains(h, n)
    decreases |h|
  {
    if |h| > 0 {
      forall i | 0 <= i && i + |n| <= |h[1..]| ensures h[1..][i] != n[0] {
        assert h[1..][i] == h[i + 1];
      }
      NoStartWithoutFirst(h[1..], n);
      if |n| <= |h| {
        assert h[..|n|][0] != n[0];
      }
    }
  }
}
