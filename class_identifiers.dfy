/** Class identifiers: a named (native) class, or an anonymous class known by
    the file and line PHP encodes in its generated name. */
module ClassIdentifiers {
  import opened Outcomes
  import opened Text
  import opened Locations
  import opened Reflection

  datatype ClassIdentifier =
    | Native(name: string)
    | Anonymous(location: Option<Location>, id: Option<string>)

  /** What PHP's generated name of an anonymous class starts with. */
  const ANONYMOUS_PREFIX: string := "class@anonymous"

  predicate IsLowerHex(c: char) { '0' <= c <= '9' || 'a' <= c <= 'f' }

  predicate AllLowerHex(s: string) { forall i :: 0 <= i < |s| ==> IsLowerHex(s[i]) }

  /** The id group `(0x|\$)[0-9a-f]+`. */
  predicate IsId(s: string) {
    (|s| >= 2 && s[0] == '$' && AllLowerHex(s[1..])) ||
    (|s| >= 3 && s[..2] == "0x" && AllLowerHex(s[2..]))
  }

  /** The text after the last ':' split into the line digits and the id: the
      digit group is greedy, so an id `0x…` gives back the '0' it swallowed. */
  function SplitLineAndId(t: string): (r: Option<(string, string)>)
    ensures r.Some? ==> t == r.value.0 + r.value.1 && |r.value.0| >= 1 &&
                        AllDigits(r.value.0) && IsId(r.value.1)
  {
    var n := RunLength(t, IsDigit);
    if 1 <= n < |t| && t[n] == '$' && |t| >= n + 2 && AllLowerHex(t[n + 1..]) then
      assert t == t[..n] + t[n..];
      Some((t[..n], t[n..]))
    else if 2 <= n < |t| && t[n] == 'x' && t[n - 1] == '0' && |t| >= n + 2 && AllLowerHex(t[n + 1..]) then
      assert t == t[..n - 1] + t[n - 1..];
      assert t[n - 1..][..2] == "0x";
      assert t[n - 1..][2..] == t[n + 1..];
      Some((t[..n - 1], t[n - 1..]))
    else None
  }

  /** `Anonymous::fromClassString`: the pattern
      `^class@anonymous(?<file>.+):(?<line>[0-9]+)(?<id>(0x|\$)[0-9a-f]+)$`. A name
      that does not match gives neither location nor id. */
  function FromClassString(s: string): (r: ClassIdentifier)
    ensures r.Anonymous?
    ensures r.location.Some? <==> r.id.Some?
    ensures r.location.Some? ==> StartsWith(s, ANONYMOUS_PREFIX)
  {
    if StartsWith(s, ANONYMOUS_PREFIX) then DecodeAfterPrefix(s[|ANONYMOUS_PREFIX|..])
    else Anonymous(None, None)
  }

  /** The pattern after its literal prefix. Nothing after the file may hold a ':',
      so the file ends at the last ':'; `.` does not match a newline. The file is
      trimmed. */
  function DecodeAfterPrefix(rest: string): (r: ClassIdentifier)
    ensures r.Anonymous?
    ensures r.location.Some? <==> r.id.Some?
    ensures r.id.Some? ==> EndsWith(rest, r.id.value)
  {
    var last := LastIndexOf(rest, ':');
    if last.None? || last.value < 1 || '\n' in rest[..last.value] then Anonymous(None, None)
    else
      var c := last.value;
      var split := SplitLineAndId(rest[c + 1..]);
      if split.None? then Anonymous(None, None)
      else
        var (digits, id) := split.value;
        EndsWithTail(rest, c + 1, digits, id);
        Anonymous(Some(NewLocation(Trim(rest[..c]), ParseInt(digits), None)), Some(id))
  }

  /** The shape the pattern accepts, with its groups. */
  predicate AnonymousForm(s: string, file: string, digits: string, id: string) {
    |file| >= 1 && '\n' !in file && |digits| >= 1 && AllDigits(digits) && IsId(id) &&
    s == ANONYMOUS_PREFIX + file + ":" + digits + id
  }

  /** The line digits and id split uniquely: the greedy split finds them. */
  lemma SplitLineAndIdFinds(digits: string, id: string)
    requires |digits| >= 1 && AllDigits(digits) && IsId(id)
    ensures SplitLineAndId(digits + id) == Some((digits, id))
  {
    var t := digits + id;
    assert t[..|digits|] == digits;
    if id[0] == '$' {
      RunLengthExact(t, |digits|);
      assert t[|digits| + 1..] == id[1..];
    } else {
      assert id[0] == id[..2][0] && id[1] == id[..2][1];
      assert t[..|digits| + 1] == digits + [id[0]];
      RunLengthExact(t, |digits| + 1);
      assert t[|digits| + 2..] == id[2..];
      assert t[..|digits|] == digits;
    }
  }

  /** Neither the line digits nor the id hold a ':'. */
  lemma NoColonInTail(digits: string, id: string)
    requires AllDigits(digits) && IsId(id)
    ensures ':' !in digits + id
  {
    var t := digits + id;
    forall j | 0 <= j < |t| ensures t[j] != ':' {
      if j < |digits| {
        assert t[j] == digits[j];
      } else {
        var k := j - |digits|;
        assert t[j] == id[k];
        if id[0] == '$' {
          if k > 0 { assert id[k] == id[1..][k - 1]; }
        } else {
          assert id[0] == id[..2][0] && id[1] == id[..2][1];
          if k > 1 { assert id[k] == id[2..][k - 2]; }
        }
      }
    }
  }

  /** A name `class@anonymous<file>:<line><id>` decodes to the trimmed file, the
      line and the id; the file may itself contain ':' since the match is greedy. */
  lemma FromClassStringDecodes(s: string, file: string, digits: string, id: string)
    requires AnonymousForm(s, file, digits, id)
    ensures FromClassString(s) == Anonymous(Some(NewLocation(Trim(file), ParseInt(digits), None)), Some(id))
  {
    var rest := s[|ANONYMOUS_PREFIX|..];
    assert s[..|ANONYMOUS_PREFIX|] == ANONYMOUS_PREFIX;
    assert rest == file + [':'] + (digits + id);
    NoColonInTail(digits, id);
    LastIndexOfAfter(file, ':', digits + id);
    assert rest[..|file|] == file;
    assert rest[|file| + 1..] == digits + id;
    SplitLineAndIdFinds(digits, id);
  }

  /** A decoded location always comes from a name of the accepted shape: the
      file and line digits it was decoded from. */
  lemma FromClassStringSound(s: string) returns (file: string, digits: string)
    requires FromClassString(s).location.Some?
    ensures AnonymousForm(s, file, digits, FromClassString(s).id.value)
    ensures FromClassString(s).location.value == NewLocation(Trim(file), ParseInt(digits), None)
  {
    var n := |ANONYMOUS_PREFIX|;
    var rest := s[n..];
    assert FromClassString(s) == DecodeAfterPrefix(rest);
    var id;
    file, digits, id := DecodeAfterPrefixSound(rest);
    PrefixRegroup(s, n, file, digits, id);
  }

  /** A name that starts with the prefix is the prefix, a file, ':' and a tail. */
  lemma PrefixRegroup(s: string, n: nat, file: string, digits: string, id: string)
    requires n == |ANONYMOUS_PREFIX| && StartsWith(s, ANONYMOUS_PREFIX)
    requires s[n..] == file + ":" + digits + id
    ensures s == ANONYMOUS_PREFIX + file + ":" + digits + id
  {
    assert s == s[..n] + s[n..];
    assert s[..n] == ANONYMOUS_PREFIX;
    Regroup(ANONYMOUS_PREFIX, file + ":", digits + id);
    Regroup(file + ":", digits, id);
    Regroup(ANONYMOUS_PREFIX + file + ":", digits, id);
    Regroup(ANONYMOUS_PREFIX, file, ":");
  }

  /** What follows the prefix, when it decodes, is a file, ':', the line digits
      and the id. */
  lemma DecodeAfterPrefixSound(rest: string) returns (file: string, digits: string, id: string)
    requires DecodeAfterPrefix(rest).location.Some?
    ensures |file| >= 1 && '\n' !in file && |digits| >= 1 && AllDigits(digits) && IsId(id)
    ensures rest == file + ":" + digits + id
    ensures DecodeAfterPrefix(rest) == Anonymous(Some(NewLocation(Trim(file), ParseInt(digits), None)), Some(id))
  {
    var c := LastIndexOf(rest, ':').value;
    var split := SplitLineAndId(rest[c + 1..]);
    file, digits, id := rest[..c], split.value.0, split.value.1;
    assert DecodeAfterPrefix(rest) == Anonymous(Some(NewLocation(Trim(file), ParseInt(digits), None)), Some(id));
    CutAt(rest, c, ':', digits + id);
    Regroup(file + ":", digits, id);
  }

  /** A string cut around the character at `c`. */
  lemma CutAt(s: string, c: nat, x: char, tail: string)
    requires c < |s| && s[c] == x && s[c + 1..] == tail
    ensures s == s[..c] + [x] + tail
  {
    assert s == s[..c] + [s[c]] + s[c + 1..];
  }

  /** `Frame::createClassIdentifier`: the anonymous decoder for generated names,
      a native class for every other name. */
  function Create(s: string): (r: ClassIdentifier)
    ensures r.Native? <==> !StartsWith(s, ANONYMOUS_PREFIX)
    ensures r.Native? ==> r.name == s
    ensures r.Anonymous? ==> r == FromClassString(s)
  {
    if StartsWith(s, ANONYMOUS_PREFIX) then FromClassString(s) else Native(s)
  }

  /** `$this->equals($other)`. A native class equals a native class of the same
      name; an anonymous class equals an anonymous class only when both locations
      are known and equal (the id is ignored). */
  predicate Equals(a: ClassIdentifier, b: ClassIdentifier) {
    match a
    case Native(name) => b.Native? && b.name == name
    case Anonymous(location, _) => b.Anonymous? && b.location.Some? && Locations.Equals(b.location.value, location)
  }

  /** Class identifier equality: never across variants, symmetric, transitive,
      reflexive on natives and on located anonymous classes, and never true of an
      anonymous class whose name did not decode. */
  lemma EqualsProperties(a: ClassIdentifier, b: ClassIdentifier, c: ClassIdentifier)
    ensures a.Native? != b.Native? ==> !Equals(a, b)
    ensures Equals(a, b) <==> Equals(b, a)
    ensures Equals(a, b) && Equals(b, c) ==> Equals(a, c)
    ensures Equals(a, a) <==> (a.Native? || a.location.Some?)
    ensures a.Native? && b.Native? ==> (Equals(a, b) <==> a.name == b.name)
    ensures a.Anonymous? && b.Anonymous? ==>
              (Equals(a, b) <==> a.location.Some? && b.location.Some? &&
                                 a.location.value.file == b.location.value.file &&
                                 a.location.value.line == b.location.value.line)
  {
  }

  /** `$identifier->name`. */
  function Name(c: ClassIdentifier): (r: string)
    ensures c.Native? ==> r == c.name
    ensures c.Anonymous? ==> r == "{anonymous}"
    ensures c.Anonymous? <==> r == "{anonymous}" && (c.Native? ==> c.name != "{anonymous}")
  {
    match c
    case Native(name) => name
    case Anonymous(_, _) => "{anonymous}"
  }

  /** `render()` (and `__toString`): the name of a native class; for an anonymous
      class `{anonymous}`, or `{anonymous:<file>:<line>}` when it is located. */
  function Render(c: ClassIdentifier, prettify: string -> string): (r: string)
    ensures c.Native? ==> r == c.name
    ensures c.Anonymous? ==> StartsWith(r, "{anonymous") && EndsWith(r, "}")
    ensures c.Anonymous? ==> (r == "{anonymous}" <==> c.location.None?)
    ensures c.Anonymous? && c.location.Some? ==>
              StartsWith(r, "{anonymous:" + prettify(c.location.value.file) + ":" + IntToString(c.location.value.line))
    ensures c.Anonymous? && c.location.Some? ==>
              |r| == 11 + |prettify(c.location.value.file)| + 1 + |IntToString(c.location.value.line)| + 1
  {
    match c
    case Native(name) => name
    case Anonymous(None, _) => "{anonymous}"
    case Anonymous(Some(loc), _) =>
      var r := "{anonymous:" + prettify(loc.file) + ":" + IntToString(loc.line) + "}";
      assert r[..11] == "{anonymous:";
      r
  }

  /** `$identifier->reflection`, by class name. The object an anonymous class
      was reflected from is not part of the model, so it has none. */
  function ClassReflection(c: ClassIdentifier, rt: Runtime): (r: Option<ClassInfo>)
    ensures c.Anonymous? ==> r.None?
    ensures c.Native? ==> r == rt.classes(c.name)
  {
    match c
    case Native(name) => rt.classes(name)
    case Anonymous(_, _) => None
  }

  /** A class argument given either as a name or as an identifier. */
  datatype ClassSpec = ClassName(name: string) | ClassId(id: ClassIdentifier)

  /** The `is_string($class) ? createClassIdentifier($class) : $class` conversion. */
  function Resolve(spec: ClassSpec): (r: ClassIdentifier)
    ensures spec.ClassId? ==> r == spec.id
    ensures spec.ClassName? ==> r == Create(spec.name)
  {
    match spec
    case ClassName(name) => Create(name)
    case ClassId(id) => id
  }

  /** The search loop `foreach ($identifiers as $id) if ($class->equals($id)) return true;`. */
  function EqualsAny(c: ClassIdentifier, ids: seq<ClassIdentifier>): (r: bool)
    ensures r <==> exists i :: 0 <= i < |ids| && Equals(c, ids[i])
  {
    if |ids| == 0 then false
    else Equals(c, ids[0]) || EqualsAny(c, ids[1..])
  }

  /** Every identifier converted, in order. */
  function ResolveAll(specs: seq<ClassSpec>): (r: seq<ClassIdentifier>)
    ensures |r| == |specs|
    ensures forall i :: 0 <= i < |specs| ==> r[i] == Resolve(specs[i])
  {
    seq(|specs|, i requires 0 <= i < |specs| => Resolve(specs[i]))
  }
}
