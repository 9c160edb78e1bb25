/** A position in a source file: file, line, and for code run by `eval` the
    line of the `eval` call. */
module Locations {
  import opened Outcomes
  import opened Text
  import opened PhpValues

  datatype Location = Location(file: string, line: int, evalLine: Option<int>)

  /** What PHP appends to the file name of code compiled by `eval`. */
  const EVAL_SUFFIX: string := ") : eval()'d code"

  /** Whether `s[i..]` starts with `(<digits>) : eval()'d code`; gives the digits.
      The digit group is greedy and followed by ')', so it is the whole run of digits. */
  function EvalTailAt(s: string, i: nat): (r: Option<string>)
    requires i <= |s|
    ensures r.Some? ==> |r.value| >= 1 && AllDigits(r.value) &&
                        StartsWith(s[i..], "(" + r.value + EVAL_SUFFIX)
  {
    var t := s[i..];
    if |t| == 0 || t[0] != '(' then None
    else
      var n := RunLength(t[1..], IsDigit);
      if n >= 1 && StartsWith(t[1 + n..], EVAL_SUFFIX) then
        assert t[1..][..n] == t[1..1 + n];
        assert t[..1 + n + |EVAL_SUFFIX|] == "(" + t[1..1 + n] + t[1 + n..][..|EVAL_SUFFIX|];
        Some(t[1..1 + n])
      else None
  }

  /** Whether the pattern matches with the path ending at `j`. */
  predicate PathEndsAt(s: string, j: nat)
    requires j <= |s|
  {
    '\n' !in s[..j] && EvalTailAt(s, j).Some?
  }

  /** `PathEndsAt` as a test on positions up to the end of `s`. */
  function PathEnds(s: string): (ok: nat -> bool)
    ensures forall j: nat :: ok(j) <==> j <= |s| && PathEndsAt(s, j)
  {
    (j: nat) => j <= |s| && PathEndsAt(s, j)
  }

  /** The regex `^(?<path>.+)\((?<line>[0-9]+)\) : eval\(\)'d code` tried with the
      greedy `path` ending at `i`, `i-1`, …, 1: the first (longest) path that
      works, with its line digits. `.` does not match a newline. */
  function EvalSearch(s: string, i: nat): (r: Option<(nat, string)>)
    requires i <= |s|
    ensures r.Some? ==> 1 <= r.value.0 <= i && '\n' !in s[..r.value.0] &&
                        EvalTailAt(s, r.value.0) == Some(r.value.1)
  {
    match LastWhere(i, PathEnds(s))
    case Some(n) => Some((n, EvalTailAt(s, n).value))
    case None => None
  }

  /** The eval pattern applied to a file name: the path length and the line digits. */
  function EvalMatch(file: string): Option<(nat, string)> {
    EvalSearch(file, |file|)
  }

  /** `new Location($file, $line, $evalLine)`: an eval file name is split into the
      path and the line inside the eval'd code, the given line becoming the eval
      line; then every backslash of the file becomes a slash. */
  function NewLocation(file: string, line: int, evalLine: Option<int>): (r: Location)
    ensures '\\' !in r.file
    ensures EvalMatch(file).None? ==> r.line == line && r.evalLine == evalLine
    ensures EvalMatch(file).Some? ==> r.evalLine == Some(line)
  {
    match EvalMatch(file)
    case Some((n, digits)) => Location(ReplaceChar(file[..n], '\\', '/'), ParseInt(digits), Some(line))
    case None => Location(ReplaceChar(file, '\\', '/'), line, evalLine)
  }

  /** An eval file name `<path>(<n>) : eval()'d code<rest>` whose rest holds no
      further '(' is decoded into the whole path (the path group is greedy, so the
      path may itself contain parentheses) and the line n. */
  lemma EvalFileDecoded(path: string, digits: string, rest: string, line: int, evalLine: Option<int>)
    requires |path| >= 1 && '\n' !in path
    requires |digits| >= 1 && AllDigits(digits)
    requires '(' !in rest
    ensures var r := NewLocation(path + "(" + digits + EVAL_SUFFIX + rest, line, evalLine);
            r == Location(ReplaceChar(path, '\\', '/'), ParseInt(digits), Some(line))
  {
    var s := path + "(" + digits + EVAL_SUFFIX + rest;
    var p := |path|;
    assert s[..p] == path;
    assert s[p..] == "(" + digits + EVAL_SUFFIX + rest;
    TailAtPath(s, p, digits, rest);
    NoTailPastPath(s, p, digits, rest);
    EvalSearchFinds(s, |s|, p);
  }

  /** The match at the end of the path: the run of digits after '(' is exactly `digits`. */
  lemma TailAtPath(s: string, p: nat, digits: string, rest: string)
    requires |digits| >= 1 && AllDigits(digits)
    requires p <= |s| && s[p..] == "(" + digits + EVAL_SUFFIX + rest
    ensures EvalTailAt(s, p) == Some(digits)
  {
    var t := s[p..];
    var n := |digits|;
    assert t[1..] == digits + EVAL_SUFFIX + rest;
    RunThen(t[1..], digits, EVAL_SUFFIX, rest, IsDigit);
    assert t[1 + n..] == t[1..][n..];
    assert t[1..1 + n] == t[1..][..n];
  }

  /** Past the end of the path the only '(' is the one of "eval(", which is followed by ')'. */
  lemma NoTailPastPath(s: string, p: nat, digits: string, rest: string)
    requires p <= |s| && s == s[..p] + "(" + digits + EVAL_SUFFIX + rest
    requires AllDigits(digits) && '(' !in rest
    ensures forall j :: p < j <= |s| ==> EvalTailAt(s, j).None?
  {
    var e := p + 1 + |digits|;
    forall j | p < j <= |s| ensures EvalTailAt(s, j).None? {
      if j <= p + |digits| {
        assert s[j] == digits[j - p - 1];
      } else if j < e + |EVAL_SUFFIX| {
        assert s[j] == EVAL_SUFFIX[j - e];
        assert j - e == 8 ==> s[j + 1] == EVAL_SUFFIX[9];
      } else if j < |s| {
        assert s[j] == rest[j - e - |EVAL_SUFFIX|];
      }
      TailNoneAt(s, j);
    }
  }

  /** No eval tail starts at the end, at a character other than '(', or at "()". */
  lemma TailNoneAt(s: string, j: nat)
    requires j <= |s|
    requires j == |s| || s[j] != '(' || (j + 1 < |s| && s[j + 1] == ')')
    ensures EvalTailAt(s, j).None?
  {
    if j < |s| && s[j] == '(' {
      assert s[j..][1..][0] == ')';
    }
  }

  /** A greedy run of digits stops at the first non-digit. */
  lemma RunLengthExact(s: string, n: nat)
    requires n < |s| && AllDigits(s[..n]) && !IsDigit(s[n])
    ensures RunLength(s, IsDigit) == n
  {
  }

  /** The search from `i` settles on `p` when `p` matches and nothing above it does. */
  lemma EvalSearchFinds(s: string, i: nat, p: nat)
    requires 1 <= p <= i <= |s|
    requires PathEndsAt(s, p)
    requires forall j :: p < j <= i ==> !PathEndsAt(s, j)
    ensures EvalSearch(s, i) == Some((p, EvalTailAt(s, p).value))
  {
    LastWhereFinds(i, p, PathEnds(s));
  }

  /** A file name without the eval marker keeps its line and eval line. */
  lemma PlainFileKept(file: string, line: int, evalLine: Option<int>)
    requires !Contains(file, EVAL_SUFFIX)
    ensures NewLocation(file, line, evalLine) == Location(ReplaceChar(file, '\\', '/'), line, evalLine)
  {
    if EvalMatch(file).Some? {
      EvalTailContains(file, EvalMatch(file).value.0);
      assert false;
    }
  }

  /** Wherever an eval tail starts, the marker occurs in the name. */
  lemma EvalTailContains(s: string, i: nat)
    requires i <= |s| && EvalTailAt(s, i).Some?
    ensures Contains(s, EVAL_SUFFIX)
  {
    var digits := EvalTailAt(s, i).value;
    var t := s[i..];
    StartsWithRest(t, "(" + digits, EVAL_SUFFIX);
    assert t[|"(" + digits|..] == s[i + 1 + |digits|..];
    ContainsAt(s, EVAL_SUFFIX, i + 1 + |digits|);
  }

  /** `$this->equals($other)`: a null location is never equal; otherwise file and
      line decide and the eval line is ignored. */
  predicate Equals(a: Location, b: Option<Location>) {
    b.Some? && b.value.file == a.file && b.value.line == a.line
  }

  /** Location equality ignores the eval line and is an equivalence on present locations. */
  lemma EqualsIsEquivalence(a: Location, b: Location, c: Location)
    ensures !Equals(a, None)
    ensures Equals(a, Some(a))
    ensures Equals(a, Some(b)) <==> Equals(b, Some(a))
    ensures Equals(a, Some(b)) && Equals(b, Some(c)) ==> Equals(a, Some(c))
    ensures Equals(a, Some(b)) <==> a.(evalLine := None) == b.(evalLine := None)
  {
  }

  /** `render()`: the prettified file, ':' and the line, then ` [eval:N]` exactly
      when an eval line is present. */
  function Render(loc: Location, prettify: string -> string): (r: string)
    ensures StartsWith(r, prettify(loc.file) + ":" + IntToString(loc.line))
    ensures loc.evalLine.None? <==> |r| == |prettify(loc.file)| + 1 + |IntToString(loc.line)|
    ensures loc.evalLine.Some? ==> EndsWith(r, " [eval:" + IntToString(loc.evalLine.value) + "]")
    ensures loc.evalLine.Some? ==>
              |r| == |prettify(loc.file)| + 1 + |IntToString(loc.line)| + 7 + |IntToString(loc.evalLine.value)| + 1
  {
    var head := prettify(loc.file) + ":" + IntToString(loc.line);
    match loc.evalLine
    case None => head
    case Some(e) => head + " [eval:" + IntToString(e) + "]"
  }

  /** `jsonSerialize()`: keys file and line, and evalLine only when it is present. */
  function ToJson(loc: Location, prettify: string -> string): (r: Json)
    ensures r.JObject?
    ensures |r.members| == if loc.evalLine.Some? then 3 else 2
    ensures r.members[0] == ("file", JString(prettify(loc.file)))
    ensures r.members[1] == ("line", JInt(loc.line))
    ensures loc.evalLine.Some? ==> r.members[2] == ("evalLine", JInt(loc.evalLine.value))
  {
    var base := [("file", JString(prettify(loc.file))), ("line", JInt(loc.line))];
    match loc.evalLine
    case None => JObject(base)
    case Some(e) => JObject(base + [("evalLine", JInt(e))])
  }
}
