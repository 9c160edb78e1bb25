/** Function identifiers: the five kinds of callee a stack frame can name, and
    the decoder for the synthetic names PHP gives closures. */
module FunctionIdentifiers {
  import opened Outcomes
  import opened Text
  import opened Locations
  import opened Reflection
  import opened ClassIdentifiers

  datatype FunctionId =
    | GlobalFunction(name: string)
    | NamespaceFunction(namespace: string, name: string)
    | ObjectMethod(cls: ClassIdentifier, name: string)
    | StaticMethod(cls: ClassIdentifier, name: string)
    | Closure(location: Option<Location>)

  predicate IsMethod(f: FunctionId) { f.ObjectMethod? || f.StaticMethod? }

  /** `$identifier->name`: a closure is always `{closure}`; a method is its bare name. */
  function Name(f: FunctionId): (r: string)
    ensures f.Closure? ==> r == "{closure}"
    ensures !f.Closure? ==> r == f.name
  {
    match f
    case Closure(_) => "{closure}"
    case _ => f.name
  }

  /** `$separator` of a method identifier. */
  function Separator(f: FunctionId): (r: string)
    requires IsMethod(f)
    ensures |r| == 2 && (r == "->" <==> f.ObjectMethod?) && (r == "::" <==> f.StaticMethod?)
  {
    if f.ObjectMethod? then "->" else "::"
  }

  // ---------------------------------------------------------------------------
  // Construction

  /** `new ObjectMethod($class, $function)`: a class given by name goes through
      `createClassIdentifier`; an identifier is kept. */
  function NewObjectMethod(cls: ClassSpec, name: string): (r: FunctionId)
    ensures r.ObjectMethod? && r.name == name
    ensures cls.ClassId? ==> r.cls == cls.id
    ensures cls.ClassName? ==> (r.cls.Anonymous? <==> StartsWith(cls.name, ANONYMOUS_PREFIX))
    ensures cls.ClassName? && r.cls.Native? ==> r.cls.name == cls.name
  {
    ObjectMethod(Resolve(cls), name)
  }

  /** `new StaticMethod($class, $function)`, with the same class conversion. */
  function NewStaticMethod(cls: ClassSpec, name: string): (r: FunctionId)
    ensures r.StaticMethod? && r.name == name
    ensures cls.ClassId? ==> r.cls == cls.id
    ensures cls.ClassName? ==> (r.cls.Anonymous? <==> StartsWith(cls.name, ANONYMOUS_PREFIX))
    ensures cls.ClassName? && r.cls.Native? ==> r.cls.name == cls.name
  {
    StaticMethod(Resolve(cls), name)
  }

  // ---------------------------------------------------------------------------
  // Closure names

  const CLOSURE_OPEN: string := "{closure:"

  /** `(?<line>[0-9]+)(.+:(?<finalLine>[0-9]+))?\}$` on what follows the file's
      ':', giving the digits of the line used: finalLine when the optional group
      matches, else line. The group ends at the last ':' before the closing '}'
      (finalLine holds no ':'), and `.+` needs at least one character which,
      after the line digits give back one, it always has once the ':' is two
      places in. `.` does not match a newline. */
  function LineTail(r: string): (res: Option<string>)
    ensures res.Some? ==> |res.value| >= 1 && AllDigits(res.value) && EndsWith(r, res.value + "}")
  {
    var n := RunLength(r, IsDigit);
    if n == 0 || r[|r| - 1] != '}' then None
    else
      var body := r[..|r| - 1];
      BraceSuffix(r, body);
      var last := LastIndexOf(body, ':');
      if last.Some? then
        var lc := last.value;
        assert r[lc] == body[lc];
        if lc >= 2 && lc + 1 < |body| && AllDigits(body[lc + 1..]) && '\n' !in body[n..lc] then
          Some(body[lc + 1..])
        else None
      else if n == |body| then
        assert body[0..] == body;
        Some(body)
      else None
  }

  /** Dropping the closing brace: every tail of what precedes it, brace added,
      ends the text. */
  lemma BraceSuffix(r: string, body: string)
    requires |r| >= 1 && r[|r| - 1] == '}' && body == r[..|r| - 1]
    ensures r == body + "}"
    ensures forall k :: 0 <= k <= |body| ==> EndsWith(r, body[k..] + "}")
    ensures forall i :: 0 <= i < |body| ==> body[i] == r[i]
  {
    assert r == body + "}";
    forall k | 0 <= k <= |body| ensures EndsWith(r, body[k..] + "}") {
      assert r[k..] == body[k..] + "}";
      EndsWithTail(r, k, "", body[k..] + "}");
    }
  }

  /** The text of `[^:]+` is the run of characters other than ':'. */
  predicate NotColon(c: char) { c != ':' }

  /** `[a-zA-Z0-9_\\]`, the characters of a class name in a closure name. */
  predicate IsClassChar(c: char) {
    'a' <= c <= 'z' || 'A' <= c <= 'Z' || '0' <= c <= '9' || c == '_' || c == '\\'
  }

  /** `[a-zA-Z0-9_]`, the characters of a method name. */
  predicate IsWordChar(c: char) {
    'a' <= c <= 'z' || 'A' <= c <= 'Z' || '0' <= c <= '9' || c == '_'
  }

  /** The first pattern, `\{closure:(?<file>[^:]+):<line tail>` tried at `j`:
      the file and the line digits. */
  function FileFormAt(s: string, j: nat): (r: Option<(string, string)>)
    requires j <= |s|
    ensures r.Some? ==> StartsWith(s[j..], CLOSURE_OPEN + r.value.0 + ":") && |r.value.0| >= 1 &&
                        ':' !in r.value.0
    ensures r.Some? ==> StartsWith(s[j..], CLOSURE_OPEN) && |r.value.1| >= 1 && AllDigits(r.value.1)
  {
    if !StartsWith(s[j..], CLOSURE_OPEN) then None
    else
      var u := s[j + |CLOSURE_OPEN|..];
      var f := RunLength(u, NotColon);
      if f >= 1 && f < |u| then
        match LineTail(u[f + 1..])
        case Some(digits) =>
          FileFormPrefix(s, j, f);
          Some((u[..f], digits))
        case None => None
      else None
  }

  /** The text up to the file's ':' is the opening, the file and that ':'. */
  lemma FileFormPrefix(s: string, j: nat, f: nat)
    requires j + |CLOSURE_OPEN| + f < |s| && StartsWith(s[j..], CLOSURE_OPEN)
    requires s[j + |CLOSURE_OPEN| + f] == ':'
    ensures StartsWith(s[j..], CLOSURE_OPEN + s[j + |CLOSURE_OPEN|..][..f] + ":")
  {
    var k := |CLOSURE_OPEN|;
    assert s[j..][..k + f + 1] == s[j..][..k] + s[j + k..j + k + f] + [s[j + k + f]];
  }

  /** The second pattern,
      `\{closure:(?<class>[a-zA-Z0-9_\\]+)::(?<method>[a-zA-Z0-9_]+)\(\):<line tail>`
      tried at `j`: the class, the method and the line digits. */
  function MethodFormAt(s: string, j: nat): (r: Option<(string, string, string)>)
    requires j <= |s|
    ensures r.Some? ==> StartsWith(s[j..], CLOSURE_OPEN) && |r.value.0| >= 1 && |r.value.1| >= 1
    ensures r.Some? ==> |r.value.2| >= 1 && AllDigits(r.value.2)
  {
    if !StartsWith(s[j..], CLOSURE_OPEN) then None else MethodFormAfterOpen(s[j + |CLOSURE_OPEN|..])
  }

  /** The second pattern after its opening: the class run, then "::". */
  function MethodFormAfterOpen(u: string): (r: Option<(string, string, string)>)
    ensures r.Some? ==> |r.value.0| >= 1 && |r.value.1| >= 1 && |r.value.2| >= 1 && AllDigits(r.value.2)
  {
    var c := RunLength(u, IsClassChar);
    if c >= 1 && StartsWith(u[c..], "::") then MethodFormAfterClass(u[..c], u[c + 2..]) else None
  }

  /** The second pattern after the class and "::": the method run, "():" and the
      line tail. */
  function MethodFormAfterClass(cls: string, v: string): (r: Option<(string, string, string)>)
    requires |cls| >= 1
    ensures r.Some? ==> r.value.0 == cls && |r.value.1| >= 1 && |r.value.2| >= 1 && AllDigits(r.value.2)
  {
    var m := RunLength(v, IsWordChar);
    if m >= 1 && StartsWith(v[m..], "():") then
      match LineTail(v[m + 3..])
      case Some(digits) => Some((cls, v[..m], digits))
      case None => None
    else None
  }

  /** Where the first pattern matches. */
  function FileMatches(s: string): (ok: nat -> bool)
    ensures forall k: nat :: ok(k) <==> k <= |s| && FileFormAt(s, k).Some?
  {
    (k: nat) => k <= |s| && FileFormAt(s, k).Some?
  }

  /** Where the second pattern matches. */
  function MethodMatches(s: string): (ok: nat -> bool)
    ensures forall k: nat :: ok(k) <==> k <= |s| && MethodFormAt(s, k).Some?
  {
    (k: nat) => k <= |s| && MethodFormAt(s, k).Some?
  }

  /** `preg_match` with the first pattern: the leftmost position where it matches. */
  function FirstFileForm(s: string): (r: Option<nat>)
    ensures r.Some? ==> r.value <= |s| && FileFormAt(s, r.value).Some?
  {
    FirstWhere(0, |s|, FileMatches(s))
  }

  /** `preg_match` with the second pattern: the leftmost position where it matches. */
  function FirstMethodForm(s: string): (r: Option<nat>)
    ensures r.Some? ==> r.value <= |s| && MethodFormAt(s, r.value).Some?
  {
    FirstWhere(0, |s|, MethodMatches(s))
  }

  /** `Closure::functionStringToLocation`: the file and line a closure name
      encodes. The first pattern names the file; the second names a method,
      whose file reflection supplies, and gives none when the class, the method
      or its file is unknown. A name matching neither gives none. */
  function FunctionStringToLocation(s: string, rt: Runtime): (r: Option<Location>)
    ensures r.Some? ==> Contains(s, CLOSURE_OPEN) && '\\' !in r.value.file
  {
    match FirstFileForm(s)
    case Some(j) =>
      var (file, digits) := FileFormAt(s, j).value;
      OpensAt(s, j);
      Some(NewLocation(file, ParseInt(digits), None))
    case None =>
      (match FirstMethodForm(s)
       case Some(j) =>
         var (cls, meth, digits) := MethodFormAt(s, j).value;
         (match MethodInfo(rt, cls, meth)
          case Some(info) =>
            if info.file.Some? then
              OpensAt(s, j);
              Some(NewLocation(info.file.value, ParseInt(digits), None))
            else None
          case None => None)
       case None => None)
  }

  /** A match starting at `j` shows the literal opening occurs in the name. */
  lemma OpensAt(s: string, j: nat)
    requires j <= |s| && StartsWith(s[j..], CLOSURE_OPEN)
    ensures Contains(s, CLOSURE_OPEN)
  {
    ContainsIffOccurs(s, CLOSURE_OPEN);
  }

  /** A plain line tail `<digits>}` gives its digits. */
  lemma LineTailPlain(digits: string)
    requires |digits| >= 1 && AllDigits(digits)
    ensures LineTail(digits + "}") == Some(digits)
  {
    var r := digits + "}";
    RunLengthStops(r, IsDigit, |digits|);
    assert r[..|r| - 1] == digits;
  }

  /** A line tail `<digits><mid>:<finalLine>}` gives finalLine. */
  lemma LineTailFinal(digits: string, mid: string, finalLine: string)
    requires |digits| >= 1 && AllDigits(digits)
    requires |mid| >= 1 && '\n' !in mid
    requires |finalLine| >= 1 && AllDigits(finalLine)
    ensures LineTail(digits + mid + ":" + finalLine + "}") == Some(finalLine)
  {
    var dm := digits + mid;
    var body := dm + ":" + finalLine;
    var r := body + "}";
    var lc := |dm|;
    assert r == digits + mid + ":" + finalLine + "}";
    assert r[..|r| - 1] == body;
    assert ':' !in finalLine by {
      forall i | 0 <= i < |finalLine| ensures finalLine[i] != ':' {
        assert IsDigit(finalLine[i]);
      }
    }
    LastIndexOfAfter(dm, ':', finalLine);
    assert body[lc + 1..] == finalLine;
    var n := RunLength(r, IsDigit);
    assert r[lc] == ':';
    assert n <= lc;
    NoNewlineAfter(digits, mid, n);
    assert body[n..lc] == dm[n..];
  }

  /** Past any point, the line digits and what follows them hold no newline. */
  lemma NoNewlineAfter(digits: string, mid: string, n: nat)
    requires AllDigits(digits) && '\n' !in mid && n <= |digits + mid|
    ensures '\n' !in (digits + mid)[n..]
  {
    var dm := digits + mid;
    forall i | n <= i < |dm| ensures dm[i] != '\n' {
      if i < |digits| {
        assert IsDigit(digits[i]);
      } else {
        assert dm[i] == mid[i - |digits|];
      }
    }
  }

  /** Neither pattern can start where there is no '{'. */
  lemma NoFormAt(s: string, k: nat)
    requires k <= |s|
    requires k == |s| || s[k] != '{'
    ensures FileFormAt(s, k).None? && MethodFormAt(s, k).None?
  {
    if k < |s| {
      assert s[k..][0] == s[k];
    }
  }

  /** Where the leftmost match of the first pattern is at `j`, the search
      finds it. */
  lemma FirstFileFormIs(s: string, j: nat)
    requires j <= |s| && FileFormAt(s, j).Some?
    requires forall k :: 0 <= k < j ==> s[k] != '{'
    ensures FirstFileForm(s) == Some(j)
  {
    forall k: nat | k < j ensures !FileMatches(s)(k) {
      NoFormAt(s, k);
    }
    FirstWhereFinds(0, j, |s|, FileMatches(s));
  }

  /** The same for the second pattern. */
  lemma FirstMethodFormIs(s: string, j: nat)
    requires j <= |s| && MethodFormAt(s, j).Some?
    requires forall k :: 0 <= k < j ==> s[k] != '{'
    ensures FirstMethodForm(s) == Some(j)
  {
    forall k: nat | k < j ensures !MethodMatches(s)(k) {
      NoFormAt(s, k);
    }
    FirstWhereFinds(0, j, |s|, MethodMatches(s));
  }

  /** The first pattern matches nowhere when it fails at `j` and there is no
      '{' elsewhere. */
  lemma NoFileFormFrom(s: string, j: nat)
    requires j <= |s| && FileFormAt(s, j).None?
    requires forall k :: 0 <= k < |s| && k != j ==> s[k] != '{'
    ensures FirstFileForm(s).None?
  {
    forall k: nat | k <= |s| ensures !FileMatches(s)(k) {
      if k != j {
        NoFormAt(s, k);
      }
    }
    FirstWhereNone(0, |s|, FileMatches(s));
  }

  /** The first pattern at `j`, once the file is known: the line tail decides. */
  lemma FileFormAtShape(s: string, j: nat, file: string, tail: string)
    requires j <= |s| && s[j..] == CLOSURE_OPEN + file + ":" + tail
    requires |file| >= 1 && ':' !in file
    ensures FileFormAt(s, j) == if LineTail(tail).Some? then Some((file, LineTail(tail).value)) else None
  {
    var u := file + ":" + tail;
    OpenThen(s, j, u);
    RunThen(u, file, ":", tail, NotColon);
  }

  /** A name that has the opening at `j` followed by `u`. */
  lemma OpenThen(s: string, j: nat, u: string)
    requires j <= |s| && s[j..] == CLOSURE_OPEN + u
    ensures StartsWith(s[j..], CLOSURE_OPEN) && s[j + |CLOSURE_OPEN|..] == u
  {
    assert s[j..][..|CLOSURE_OPEN|] == CLOSURE_OPEN;
    assert s[j + |CLOSURE_OPEN|..] == s[j..][|CLOSURE_OPEN|..];
  }

  /** What the decoder gives once the first pattern's leftmost match is known. */
  lemma FileFormResult(s: string, j: nat, file: string, digits: string, rt: Runtime)
    requires FirstFileForm(s) == Some(j) && FileFormAt(s, j) == Some((file, digits))
    ensures FunctionStringToLocation(s, rt) == Some(NewLocation(file, ParseInt(digits), None))
  {
  }

  /** A name whose only '{' before `j` is none at all. */
  lemma NoBraceBefore(s: string, prefix: string)
    requires '{' !in prefix && StartsWith(s, prefix)
    ensures forall k :: 0 <= k < |prefix| ==> s[k] != '{'
  {
    forall k | 0 <= k < |prefix| ensures s[k] != '{' {
      assert s[k] == s[..|prefix|][k];
    }
  }

  /** A name `<prefix>{closure:<file>:<tail>` with no '{' in the prefix and a
      file without ':' decodes to that file with the line the tail gives. */
  lemma FileFormDecodes(s: string, prefix: string, file: string, tail: string, digits: string, rt: Runtime)
    requires '{' !in prefix && |file| >= 1 && ':' !in file && LineTail(tail) == Some(digits)
    requires s == prefix + CLOSURE_OPEN + file + ":" + tail
    ensures FunctionStringToLocation(s, rt) == Some(NewLocation(file, ParseInt(digits), None))
  {
    var j := |prefix|;
    assert s[..j] == prefix;
    assert s[j..] == CLOSURE_OPEN + file + ":" + tail;
    FileFormAtShape(s, j, file, tail);
    NoBraceBefore(s, prefix);
    FirstFileFormIs(s, j);
    FileFormResult(s, j, file, digits, rt);
  }

  /** A name ending in `{closure:<file>:<line>}`, with no '{' before it and a
      file without ':', gives that file and line. */
  lemma ClosurePlainDecodes(s: string, prefix: string, file: string, digits: string, rt: Runtime)
    requires '{' !in prefix && |file| >= 1 && ':' !in file && |digits| >= 1 && AllDigits(digits)
    requires s == prefix + CLOSURE_OPEN + file + ":" + digits + "}"
    ensures FunctionStringToLocation(s, rt) == Some(NewLocation(file, ParseInt(digits), None))
  {
    LineTailPlain(digits);
    Regroup(prefix + CLOSURE_OPEN + file + ":", digits, "}");
    FileFormDecodes(s, prefix, file, digits + "}", digits, rt);
  }

  /** Concatenation regroups around the line tail. */
  lemma RegroupTail(h: string, digits: string, mid: string, finalLine: string)
    ensures h + digits + mid + ":" + finalLine + "}" == h + (digits + mid + ":" + finalLine + "}")
  {
    Regroup(h + digits + mid, ":", finalLine);
    Regroup(h + digits, mid, ":" + finalLine);
    Regroup(h, digits, mid + ":" + finalLine);
    Regroup(h, digits + mid + ":" + finalLine, "}");
  }

  /** A closure name whose line is followed by `<mid>:<finalLine>` before the
      closing '}' gives finalLine. */
  lemma ClosureFinalLineDecodes(s: string, prefix: string, file: string, digits: string,
                                mid: string, finalLine: string, rt: Runtime)
    requires '{' !in prefix && |file| >= 1 && ':' !in file && |digits| >= 1 && AllDigits(digits)
    requires |mid| >= 1 && '\n' !in mid && |finalLine| >= 1 && AllDigits(finalLine)
    requires s == prefix + CLOSURE_OPEN + file + ":" + digits + mid + ":" + finalLine + "}"
    ensures FunctionStringToLocation(s, rt) == Some(NewLocation(file, ParseInt(finalLine), None))
  {
    var tail := digits + mid + ":" + finalLine + "}";
    LineTailFinal(digits, mid, finalLine);
    RegroupTail(prefix + CLOSURE_OPEN + file + ":", digits, mid, finalLine);
    FileFormDecodes(s, prefix, file, tail, finalLine, rt);
  }

  /** The second pattern at `j`, once class and method are known: the line tail
      decides. */
  lemma MethodFormAtShape(s: string, j: nat, cls: string, meth: string, tail: string)
    requires j <= |s| && s[j..] == CLOSURE_OPEN + cls + "::" + meth + "():" + tail
    requires |cls| >= 1 && forall i :: 0 <= i < |cls| ==> IsClassChar(cls[i])
    requires |meth| >= 1 && forall i :: 0 <= i < |meth| ==> IsWordChar(meth[i])
    ensures MethodFormAt(s, j) == if LineTail(tail).Some? then Some((cls, meth, LineTail(tail).value)) else None
  {
    var v := meth + "():" + tail;
    var u := cls + "::" + v;
    assert s[j..] == CLOSURE_OPEN + u;
    OpenThen(s, j, u);
    RunThen(u, cls, "::", v, IsClassChar);
    assert MethodFormAt(s, j) == MethodFormAfterClass(cls, v);
    RunThen(v, meth, "():", tail, IsWordChar);
  }

  /** What the decoder gives once only the second pattern matches, leftmost at `j`. */
  lemma MethodFormResult(s: string, j: nat, cls: string, meth: string, digits: string, rt: Runtime)
    requires FirstFileForm(s).None?
    requires FirstMethodForm(s) == Some(j) && MethodFormAt(s, j) == Some((cls, meth, digits))
    ensures MethodInfo(rt, cls, meth).Some? && MethodInfo(rt, cls, meth).value.file.Some? ==>
              FunctionStringToLocation(s, rt) ==
              Some(NewLocation(MethodInfo(rt, cls, meth).value.file.value, ParseInt(digits), None))
    ensures MethodInfo(rt, cls, meth).None? || MethodInfo(rt, cls, meth).value.file.None? ==>
              FunctionStringToLocation(s, rt).None?
  {
  }

  /** A name ending in `{closure:<Class>::<method>():<line>}`, with no '{' before
      it, takes its file from reflection of that method, and gives none when
      reflection knows no such method or no file for it. */
  lemma ClosureMethodDecodes(s: string, prefix: string, cls: string, meth: string, digits: string, rt: Runtime)
    requires '{' !in prefix && |digits| >= 1 && AllDigits(digits)
    requires |cls| >= 1 && forall i :: 0 <= i < |cls| ==> IsClassChar(cls[i])
    requires |meth| >= 1 && forall i :: 0 <= i < |meth| ==> IsWordChar(meth[i])
    requires s == prefix + CLOSURE_OPEN + cls + "::" + meth + "():" + digits + "}"
    ensures MethodInfo(rt, cls, meth).Some? && MethodInfo(rt, cls, meth).value.file.Some? ==>
              FunctionStringToLocation(s, rt) ==
              Some(NewLocation(MethodInfo(rt, cls, meth).value.file.value, ParseInt(digits), None))
    ensures MethodInfo(rt, cls, meth).None? || MethodInfo(rt, cls, meth).value.file.None? ==>
              FunctionStringToLocation(s, rt).None?
  {
    NoFileFormInMethodName(s, prefix, cls, meth, digits);
    MethodFormFound(s, prefix, cls, meth, digits);
    MethodFormResult(s, |prefix|, cls, meth, digits, rt);
  }

  /** The first pattern matches nowhere in a method closure name: after the
      class comes a second ':', not a digit, and there is no other '{'. */
  lemma NoFileFormInMethodName(s: string, prefix: string, cls: string, meth: string, digits: string)
    requires '{' !in prefix && |digits| >= 1 && AllDigits(digits)
    requires |cls| >= 1 && forall i :: 0 <= i < |cls| ==> IsClassChar(cls[i])
    requires forall i :: 0 <= i < |meth| ==> IsWordChar(meth[i])
    requires s == prefix + CLOSURE_OPEN + cls + "::" + meth + "():" + digits + "}"
    ensures FirstFileForm(s).None?
  {
    var j := |prefix|;
    var rest := ":" + meth + "():" + digits + "}";
    assert s[j..] == CLOSURE_OPEN + cls + ":" + rest;
    assert ':' !in cls by {
      forall i | 0 <= i < |cls| ensures cls[i] != ':' {
        assert IsClassChar(cls[i]);
      }
    }
    RunLengthStops(rest, IsDigit, 0);
    FileFormAtShape(s, j, cls, rest);
    NoOtherBrace(s, prefix, cls, meth, digits);
    NoFileFormFrom(s, j);
  }

  /** The second pattern matches a method closure name at its '{'. */
  lemma MethodFormFound(s: string, prefix: string, cls: string, meth: string, digits: string)
    requires '{' !in prefix && |digits| >= 1 && AllDigits(digits)
    requires |cls| >= 1 && forall i :: 0 <= i < |cls| ==> IsClassChar(cls[i])
    requires |meth| >= 1 && forall i :: 0 <= i < |meth| ==> IsWordChar(meth[i])
    requires s == prefix + CLOSURE_OPEN + cls + "::" + meth + "():" + digits + "}"
    ensures FirstMethodForm(s) == Some(|prefix|)
    ensures MethodFormAt(s, |prefix|) == Some((cls, meth, digits))
  {
    var j := |prefix|;
    var tail := digits + "}";
    assert s[..j] == prefix;
    assert s[j..] == CLOSURE_OPEN + cls + "::" + meth + "():" + tail;
    LineTailPlain(digits);
    MethodFormAtShape(s, j, cls, meth, tail);
    NoBraceBefore(s, prefix);
    FirstMethodFormIs(s, j);
  }

  /** In a method closure name the only '{' is the one that opens it. */
  lemma NoOtherBrace(s: string, prefix: string, cls: string, meth: string, digits: string)
    requires '{' !in prefix && AllDigits(digits)
    requires forall i :: 0 <= i < |cls| ==> IsClassChar(cls[i])
    requires forall i :: 0 <= i < |meth| ==> IsWordChar(meth[i])
    requires s == prefix + CLOSURE_OPEN + cls + "::" + meth + "():" + digits + "}"
    ensures forall k :: 0 <= k < |s| && k != |prefix| ==> s[k] != '{'
  {
    var j := |prefix|;
    var after := s[j + 1..];
    assert after == "closure:" + cls + "::" + meth + "():" + digits + "}";
    assert '{' !in cls by {
      forall i | 0 <= i < |cls| ensures cls[i] != '{' { assert IsClassChar(cls[i]); }
    }
    assert '{' !in meth by {
      forall i | 0 <= i < |meth| ensures meth[i] != '{' { assert IsWordChar(meth[i]); }
    }
    assert '{' !in digits by {
      forall i | 0 <= i < |digits| ensures digits[i] != '{' { assert IsDigit(digits[i]); }
    }
    assert '{' !in after;
    forall k | 0 <= k < |s| && k != j ensures s[k] != '{' {
      if k < j {
        assert s[k] == prefix[k];
      } else {
        assert s[k] == after[k - j - 1];
      }
    }
  }

  /** Without the literal `{closure:` no location is decoded. */
  lemma ClosureNoOpening(s: string, rt: Runtime)
    requires !Contains(s, CLOSURE_OPEN)
    ensures FunctionStringToLocation(s, rt).None?
  {
  }

  /** `Closure::fromFunctionString`. */
  function FromFunctionString(s: string, rt: Runtime): (r: FunctionId)
    ensures r.Closure? && r.location == FunctionStringToLocation(s, rt)
    ensures Name(r) == "{closure}"
  {
    Closure(FunctionStringToLocation(s, rt))
  }

  // ---------------------------------------------------------------------------
  // Behaviour of identifiers

  /** `$this->equals($other)`: the same kind of identifier, and then the same
      name (and namespace), an equal class and the same name, or for closures
      equal locations or both locations unknown. */
  predicate Equals(a: FunctionId, b: FunctionId) {
    match a
    case GlobalFunction(name) => b.GlobalFunction? && b.name == name
    case NamespaceFunction(ns, name) => b.NamespaceFunction? && b.namespace == ns && b.name == name
    case ObjectMethod(cls, name) => b.ObjectMethod? && ClassIdentifiers.Equals(b.cls, cls) && b.name == name
    case StaticMethod(cls, name) => b.StaticMethod? && ClassIdentifiers.Equals(b.cls, cls) && b.name == name
    case Closure(location) =>
      b.Closure? &&
      ((b.location.Some? && Locations.Equals(b.location.value, location)) ||
       (b.location.None? && location.None?))
  }

  /** Function identifier equality never relates two kinds, is symmetric, and
      compares methods by class identity and bare name. */
  lemma EqualsProperties(a: FunctionId, b: FunctionId)
    ensures a.GlobalFunction? != b.GlobalFunction? ==> !Equals(a, b)
    ensures a.NamespaceFunction? != b.NamespaceFunction? ==> !Equals(a, b)
    ensures a.ObjectMethod? != b.ObjectMethod? ==> !Equals(a, b)
    ensures a.StaticMethod? != b.StaticMethod? ==> !Equals(a, b)
    ensures a.Closure? != b.Closure? ==> !Equals(a, b)
    ensures Equals(a, b) <==> Equals(b, a)
    ensures IsMethod(a) && IsMethod(b) ==>
              (Equals(a, b) <==> a.ObjectMethod? == b.ObjectMethod? &&
                                 ClassIdentifiers.Equals(a.cls, b.cls) && a.name == b.name)
    ensures a.Closure? && b.Closure? ==>
              (Equals(a, b) <==> (a.location.None? && b.location.None?) ||
                                 (a.location.Some? && Locations.Equals(a.location.value, b.location)))
  {
    if a.Closure? && b.Closure? && a.location.Some? && b.location.Some? {
      EqualsIsEquivalence(a.location.value, b.location.value, b.location.value);
    }
    if IsMethod(a) && IsMethod(b) {
      ClassIdentifiers.EqualsProperties(a.cls, b.cls, b.cls);
    }
  }

  /** A method on an anonymous class whose name did not decode equals no method,
      itself included. */
  lemma UnlocatedAnonymousMethodNeverEqual(a: FunctionId, b: FunctionId)
    requires IsMethod(a) && a.cls.Anonymous? && a.cls.location.None?
    ensures !Equals(a, b) && !Equals(b, a)
  {
    if IsMethod(b) {
      ClassIdentifiers.EqualsProperties(a.cls, b.cls, b.cls);
    }
  }

  /** `isFunction(...$names)`: never for a closure; otherwise whether the bare
      name is one of the names. */
  function IsFunction(f: FunctionId, names: seq<string>): (r: bool)
    ensures r <==> !f.Closure? && exists i :: 0 <= i < |names| && names[i] == f.name
    ensures |names| == 0 ==> !r
  {
    !f.Closure? && f.name in names
  }

  /** Only which names are given matters to `isFunction`, not their order or
      repetition. */
  lemma IsFunctionNamesAsSet(f: FunctionId, a: seq<string>, b: seq<string>)
    requires forall n :: n in a <==> n in b
    ensures IsFunction(f, a) == IsFunction(f, b)
  {
  }

  /** The names `isInternal` treats as language constructs. */
  const LANGUAGE_CONSTRUCTS: set<string> := {"eval", "require", "require_once", "include", "include_once"}

  /** `GlobalFunction::isInternal`: a language construct, or a function reflection
      reports as internal; an unknown function is not internal. Only global
      functions define it; every other kind counts as not internal. */
  function IsInternal(f: FunctionId, rt: Runtime): (r: bool)
    ensures r ==> f.GlobalFunction?
    ensures f.GlobalFunction? && f.name in LANGUAGE_CONSTRUCTS ==> r
    ensures f.GlobalFunction? && f.name !in LANGUAGE_CONSTRUCTS ==>
              (r <==> rt.functions(f.name).Some? && rt.functions(f.name).value.internal)
  {
    match f
    case GlobalFunction(name) =>
      name in LANGUAGE_CONSTRUCTS || (rt.functions(name).Some? && rt.functions(name).value.internal)
    case _ => false
  }

  /** `$identifier->reflection`. For a method: the class's method of that name,
      none when the class has no reflection or no such method. Closures have none. */
  function FunctionReflection(f: FunctionId, rt: Runtime): (r: Option<FunctionInfo>)
    ensures f.Closure? ==> r.None?
    ensures f.GlobalFunction? ==> r == rt.functions(f.name)
    ensures f.NamespaceFunction? ==> r == rt.functions(f.namespace + "\\" + f.name)
    ensures IsMethod(f) && ClassReflection(f.cls, rt).None? ==> r.None?
    ensures IsMethod(f) && ClassReflection(f.cls, rt).Some? ==> r == ClassReflection(f.cls, rt).value.methods(f.name)
  {
    match f
    case GlobalFunction(name) => rt.functions(name)
    case NamespaceFunction(ns, name) => rt.functions(ns + "\\" + name)
    case ObjectMethod(cls, name) =>
      (match ClassReflection(cls, rt)
       case Some(info) => info.methods(name)
       case None => None)
    case StaticMethod(cls, name) =>
      (match ClassReflection(cls, rt)
       case Some(info) => info.methods(name)
       case None => None)
    case Closure(_) => None
  }

  /** Whether reading `$identifier->reflection` raises `ReflectionException`:
      a namespaced function is reflected without a `function_exists` guard,
      and a method's class by `new ReflectionClass`, so an unknown qualified
      name or an unknown named class throws. */
  predicate ReflectionThrows(f: FunctionId, rt: Runtime) {
    match f
    case NamespaceFunction(ns, name) => rt.functions(ns + "\\" + name).None?
    case ObjectMethod(cls, _) => cls.Native? && rt.classes(cls.name).None?
    case StaticMethod(cls, _) => cls.Native? && rt.classes(cls.name).None?
    case _ => false
  }

  /** `$identifier->namespace`: as stored for a namespaced function; for a method
      the namespace its class's reflection reports, none without reflection.
      Other kinds do not have one. */
  function Namespace(f: FunctionId, rt: Runtime): (r: Option<string>)
    ensures f.NamespaceFunction? ==> r == Some(f.namespace)
    ensures IsMethod(f) ==> (r.Some? <==> ClassReflection(f.cls, rt).Some?)
    ensures IsMethod(f) && r.Some? ==> r.value == ClassReflection(f.cls, rt).value.namespace
    ensures f.GlobalFunction? || f.Closure? ==> r.None?
  {
    match f
    case NamespaceFunction(ns, _) => Some(ns)
    case ObjectMethod(cls, _) =>
      (match ClassReflection(cls, rt)
       case Some(info) => Some(info.namespace)
       case None => None)
    case StaticMethod(cls, _) =>
      (match ClassReflection(cls, rt)
       case Some(info) => Some(info.namespace)
       case None => None)
    case _ => None
  }

  /** `render()`: `[internal] ` before an internal global function,
      `namespace\name`, `Class->name` or `Class::name`, and `{closure}` or
      `{closure:<file>:<line>}`. */
  function Render(f: FunctionId, rt: Runtime): (r: string)
    ensures f.GlobalFunction? ==> EndsWith(r, f.name)
    ensures f.GlobalFunction? ==> (StartsWith(r, "[internal] ") && |r| == |f.name| + 11 <==> IsInternal(f, rt))
    ensures f.GlobalFunction? && !IsInternal(f, rt) ==> r == f.name
    ensures f.NamespaceFunction? ==> StartsWith(r, f.namespace + "\\") && EndsWith(r, f.name)
    ensures f.NamespaceFunction? ==> |r| == |f.namespace| + 1 + |f.name|
    ensures IsMethod(f) ==> StartsWith(r, ClassIdentifiers.Render(f.cls, rt.prettify) + Separator(f))
    ensures IsMethod(f) ==> EndsWith(r, f.name)
    ensures IsMethod(f) ==> |r| == |ClassIdentifiers.Render(f.cls, rt.prettify)| + 2 + |f.name|
    ensures f.Closure? ==> (r == "{closure}" <==> f.location.None?) && StartsWith(r, "{closure")
    ensures f.Closure? && f.location.Some? ==>
              r == "{closure:" + rt.prettify(f.location.value.file) + ":" + IntToString(f.location.value.line) + "}"
  {
    match f
    case GlobalFunction(name) =>
      if IsInternal(f, rt) then
        var r := "[internal] " + name;
        assert r[..11] == "[internal] ";
        r
      else
        assert |name| != |name| + 11;
        name
    case NamespaceFunction(ns, name) => ns + "\\" + name
    case ObjectMethod(cls, name) => ClassIdentifiers.Render(cls, rt.prettify) + "->" + name
    case StaticMethod(cls, name) => ClassIdentifiers.Render(cls, rt.prettify) + "::" + name
    case Closure(None) => "{closure}"
    case Closure(Some(loc)) =>
      var r := "{closure:" + rt.prettify(loc.file) + ":" + IntToString(loc.line) + "}";
      assert r[..8] == "{closure";
      r
  }

  /** `GlobalFunction::jsonSerializeWithOptions`: the bare name, without the
      `[internal] ` mark that rendering may add. */
  function GlobalJson(f: FunctionId): (r: string)
    requires f.GlobalFunction?
    ensures r == f.name
  {
    f.name
  }

  /** The JSON form of a global function differs from its rendering exactly by
      the internal mark. */
  lemma GlobalJsonUnmarked(f: FunctionId, rt: Runtime)
    requires f.GlobalFunction?
    ensures Render(f, rt) == (if IsInternal(f, rt) then "[internal] " else "") + GlobalJson(f)
  {
  }

  /** The search loop `foreach ($identifiers as $id) if ($f->equals($id)) return true;`. */
  function EqualsAny(f: FunctionId, ids: seq<FunctionId>): (r: bool)
    ensures r <==> exists i :: 0 <= i < |ids| && Equals(f, ids[i])
  {
    if |ids| == 0 then false
    else Equals(f, ids[0]) || EqualsAny(f, ids[1..])
  }
}
