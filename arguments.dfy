/** The arguments of a frame: positional keys renamed after the callee's
    parameters, and their rendering as a count, as named values or as JSON. */
module Arguments {
  import opened Outcomes
  import opened Text
  import opened PhpValues
  import opened Reflection
  import opened ClassIdentifiers

  datatype ArgumentList = ArgumentList(values: Entries)

  /** How a frame shows its arguments. */
  datatype ArgumentFormat = Count | NamedValues

  /** The view settings argument and frame rendering read: the longest string
      shown in full, the redaction predicate, the indentation of continuation
      lines, and the project root. */
  datatype RenderSettings = RenderSettings(
    maxStringLength: nat,
    redact: Option<(Key, Value) -> bool>,
    gutter: nat,
    rootPath: Option<string>)

  // ---------------------------------------------------------------------------
  // Construction

  /** `isset($params[$key])`: an integer key that indexes the parameter list
      takes that parameter's name; every other key is kept. */
  function NewKey(k: Key, params: seq<string>): (r: Key)
    ensures k.IntKey? && 0 <= k.i < |params| ==> r == StrKey(params[k.i])
    ensures !(k.IntKey? && 0 <= k.i < |params|) ==> r == k
  {
    if k.IntKey? && 0 <= k.i < |params| then StrKey(params[k.i]) else k
  }

  /** The values after the renaming loop has seen all of them: each is assigned
      under its new key, in order, so a later value under a key already present
      replaces the earlier one in its place. */
  function Rekeyed(values: Entries, params: seq<string>): (r: Entries)
    ensures DistinctKeys(r)
    decreases |values|
  {
    if |values| == 0 then []
    else
      var last := values[|values| - 1];
      var acc := Rekeyed(values[..|values| - 1], params);
      AssignKeepsDistinct(acc, NewKey(last.0, params), last.1);
      Assign(acc, NewKey(last.0, params), last.1)
  }

  /** Assignment keeps the keys of an array distinct. */
  lemma AssignKeepsDistinct(a: Entries, k: Key, v: Value)
    requires DistinctKeys(a)
    ensures DistinctKeys(Assign(a, k, v))
  {
  }

  /** `new ArgumentList($values, $function)`: with reflection of the callee,
      the values are rebuilt key by key under the parameter names; without, they
      are kept as they are. */
  method NewArgumentList(values: Entries, reflection: Option<FunctionInfo>) returns (a: ArgumentList)
    ensures reflection.None? ==> a.values == values
    ensures reflection.Some? ==> a.values == Rekeyed(values, reflection.value.parameters)
  {
    if reflection.None? {
      return ArgumentList(values);
    }
    var params := reflection.value.parameters;
    var acc: Entries := [];
    var i := 0;
    while i < |values|
      invariant 0 <= i <= |values|
      invariant acc == Rekeyed(values[..i], params)
    {
      assert values[..i + 1][..i] == values[..i];
      acc := Assign(acc, NewKey(values[i].0, params), values[i].1);
      i := i + 1;
    }
    assert values[..i] == values;
    a := ArgumentList(acc);
  }

  /** The new keys of distinct positions stay apart. */
  predicate RenamesApart(values: Entries, params: seq<string>) {
    forall i, j :: 0 <= i < j < |values| ==> NewKey(values[i].0, params) != NewKey(values[j].0, params)
  }

  /** When no two renamed keys collide, renaming keeps every value in its
      place and only changes keys: the i-th value is the i-th input's under its
      new key. */
  lemma {:induction false} RekeyedRenamesInPlace(values: Entries, params: seq<string>)
    requires RenamesApart(values, params)
    ensures |Rekeyed(values, params)| == |values|
    ensures forall i :: 0 <= i < |values| ==>
              Rekeyed(values, params)[i] == (NewKey(values[i].0, params), values[i].1)
    decreases |values|
  {
    if |values| > 0 {
      var n := |values| - 1;
      var init := values[..n];
      assert RenamesApart(init, params) by {
        forall i, j | 0 <= i < j < |init| ensures NewKey(init[i].0, params) != NewKey(init[j].0, params) {
          assert init[i] == values[i] && init[j] == values[j];
        }
      }
      RekeyedRenamesInPlace(init, params);
      var acc := Rekeyed(init, params);
      var k := NewKey(values[n].0, params);
      forall i | 0 <= i < |acc| ensures acc[i].0 != k {
        assert acc[i].0 == NewKey(values[i].0, params);
      }
      assert IndexOfKey(acc, k).None?;
    }
  }

  /** Integer keys beyond the parameter list, and string keys, keep their key. */
  lemma NewKeyOutsideKept(k: Key, params: seq<string>)
    requires k.StrKey? || k.i < 0 || k.i >= |params|
    ensures NewKey(k, params) == k
  {
  }

  /** `count()`: the number of stored values. */
  function CountOf(a: ArgumentList): (n: nat)
    ensures n == |a.values|
  {
    |a.values|
  }

  /** With no collisions, the renamed list counts as many values as it was given. */
  lemma CountAfterRenaming(values: Entries, params: seq<string>)
    requires RenamesApart(values, params)
    ensures CountOf(ArgumentList(Rekeyed(values, params))) == |values|
  {
    RekeyedRenamesInPlace(values, params);
  }

  // ---------------------------------------------------------------------------
  // Rendering

  /** `buildCountString`: `()` for no arguments, else `(...N)`. */
  function CountString(a: ArgumentList): (r: string)
    ensures r == "()" <==> |a.values| == 0
    ensures |a.values| > 0 ==> StartsWith(r, "(...") && EndsWith(r, ")") && |r| >= 5 &&
                               AllDigits(r[4..|r| - 1]) && DigitsValue(r[4..|r| - 1]) == |a.values|
  {
    if |a.values| > 0 then
      var digits := NatToString(|a.values|);
      var r := "(..." + digits + ")";
      assert r[4..|r| - 1] == digits;
      assert r[..4] == "(...";
      NatToStringRoundTrip(|a.values|);
      r
    else "()"
  }

  /** `exportValue($key, $value)`: `*sensitive*` when the redaction predicate
      holds, whatever the value; otherwise a string quoted, or cut to the
      longest length shown with its full length after it; `array(N)`; a date's
      formatted text; an object's class; `{resource T}`; `true`/`false`;
      `null`; and for the remaining scalars their type name. */
  function Export(k: Key, v: Value, settings: RenderSettings, prettify: string -> string): (r: string)
    ensures settings.redact.Some? && settings.redact.value(k, v) ==> r == "*sensitive*"
    ensures !(settings.redact.Some? && settings.redact.value(k, v)) ==>
              (v.VString? && |v.s| <= settings.maxStringLength ==> r == "'" + v.s + "'") &&
              (v.VString? && |v.s| > settings.maxStringLength ==>
                 r == "'" + v.s[..settings.maxStringLength] + "...'[" + IntToString(|v.s|) + "]") &&
              (v.VArray? ==> r == "array(" + IntToString(|v.entries|) + ")") &&
              (v.VDateTime? ==> r == v.formatted) &&
              (v.VObject? ==> r == ClassIdentifiers.Render(Create(v.className), prettify)) &&
              (v.VResource? ==> r == "{resource " + v.resourceType + "}") &&
              (v.VBool? ==> r == if v.b then "true" else "false") &&
              (v.VNull? ==> r == "null") &&
              (v.VInt? ==> r == "int") &&
              (v.VFloat? ==> r == "float")
  {
    if settings.redact.Some? && settings.redact.value(k, v) then "*sensitive*"
    else
      match v
      case VString(s) =>
        if |s| > settings.maxStringLength then
          "'" + s[..settings.maxStringLength] + "...'[" + IntToString(|s|) + "]"
        else "'" + s + "'"
      case VArray(entries) => "array(" + IntToString(|entries|) + ")"
      case VDateTime(formatted) => formatted
      case VObject(className) => ClassIdentifiers.Render(Create(className), prettify)
      case VResource(t) => "{resource " + t + "}"
      case VBool(b) => if b then "true" else "false"
      case VNull => "null"
      case VInt(_) => "int"
      case VFloat(_) => "float"
  }

  /** An unredacted string within the limit is shown whole between quotes, so
      the text between the quotes gives it back; a longer one keeps exactly the
      limit's worth of its start, and its length can be read back after it. */
  lemma ExportStringShape(k: Key, s: string, settings: RenderSettings, prettify: string -> string)
    requires !(settings.redact.Some? && settings.redact.value(k, VString(s)))
    ensures var r := Export(k, VString(s), settings, prettify);
            |s| <= settings.maxStringLength ==> |r| == |s| + 2 && r[1..|r| - 1] == s
    ensures var r := Export(k, VString(s), settings, prettify);
            |s| > settings.maxStringLength ==>
              StartsWith(r, "'" + s[..settings.maxStringLength] + "...'[") &&
              |r| == settings.maxStringLength + 7 + |NatToString(|s|)| &&
              DigitsValue(r[settings.maxStringLength + 6..|r| - 1]) == |s|
  {
    var r := Export(k, VString(s), settings, prettify);
    var m := settings.maxStringLength;
    if |s| > m {
      var head := "'" + s[..m] + "...'[";
      var digits := NatToString(|s|);
      assert r == head + digits + "]";
      assert r[..|head|] == head;
      assert r[m + 6..|r| - 1] == digits;
      NatToStringRoundTrip(|s|);
    }
  }

  /** One entry of the named form: `key: ` before the export unless the keys
      are the list 0..n-1. */
  function EntryString(values: Entries, i: nat, settings: RenderSettings, prettify: string -> string): (r: string)
    requires i < |values|
    ensures IsList(values) ==> r == Export(values[i].0, values[i].1, settings, prettify)
    ensures !IsList(values) ==>
              r == KeyString(values[i].0) + ": " + Export(values[i].0, values[i].1, settings, prettify)
  {
    var s := Export(values[i].0, values[i].1, settings, prettify);
    if IsList(values) then s else KeyString(values[i].0) + ": " + s
  }

  /** The named form: `()` when empty, `(x)` for one entry, otherwise one entry
      per line indented by the gutter plus four and `)` indented by the gutter. */
  function NamedString(values: Entries, settings: RenderSettings, prettify: string -> string): (r: string)
    ensures |values| == 0 ==> r == "()"
    ensures |values| == 1 ==> r == "(" + EntryString(values, 0, settings, prettify) + ")"
    ensures |values| >= 2 ==>
              StartsWith(r, "(\n" + Repeat(' ', settings.gutter + 4)) &&
              EndsWith(r, "\n" + Repeat(' ', settings.gutter) + ")")
  {
    if |values| == 0 then "()"
    else
      var entries := seq(|values|, i requires 0 <= i < |values| => EntryString(values, i, settings, prettify));
      if |entries| == 1 then "(" + entries[0] + ")"
      else
        var pad := Repeat(' ', settings.gutter + 4);
        var head := "(\n" + pad;
        var tail := "\n" + Repeat(' ', settings.gutter) + ")";
        var r := head + Join(entries, "\n" + pad) + tail;
        assert r[..|head|] == head;
        assert r[|r| - |tail|..] == tail;
        r
  }

  /** The entries of the named form, each indented by the gutter plus four. */
  function IndentedEntries(values: Entries, settings: RenderSettings, prettify: string -> string): (lines: seq<string>)
    ensures |lines| == |values|
    ensures forall i :: 0 <= i < |values| ==>
              lines[i] == Repeat(' ', settings.gutter + 4) + EntryString(values, i, settings, prettify)
  {
    seq(|values|, i requires 0 <= i < |values| => Repeat(' ', settings.gutter + 4) + EntryString(values, i, settings, prettify))
  }

  /** The layout of the named form, on any entry strings: the opening line,
      the padded entries and the closing line, joined by newlines. */
  lemma {:induction false} LayoutJoined(entries: seq<string>, pad: string, gutter: string)
    requires |entries| >= 2
    ensures "(\n" + pad + Join(entries, "\n" + pad) + ("\n" + gutter + ")") ==
            Join(["("] + seq(|entries|, i requires 0 <= i < |entries| => pad + entries[i]) + [gutter + ")"], "\n")
  {
    var padded := seq(|entries|, i requires 0 <= i < |entries| => pad + entries[i]);
    var body := Join(entries, "\n" + pad);
    JoinPrefixed(pad, entries, "\n");
    JoinSnoc(["("] + padded, gutter + ")", "\n");
    assert (["("] + padded)[1..] == padded;
    calc {
      "(\n" + pad + body + ("\n" + gutter + ")");
      "(" + "\n" + (pad + body) + "\n" + (gutter + ")");
      Join(["("] + padded, "\n") + "\n" + (gutter + ")");
    }
  }

  /** The named form of several entries is its lines joined by newlines. */
  lemma NamedStringJoined(values: Entries, settings: RenderSettings, prettify: string -> string)
    requires |values| >= 2
    ensures NamedString(values, settings, prettify) ==
            Join(["("] + IndentedEntries(values, settings, prettify) + [Repeat(' ', settings.gutter) + ")"], "\n")
  {
    var entries := seq(|values|, i requires 0 <= i < |values| => EntryString(values, i, settings, prettify));
    var pad := Repeat(' ', settings.gutter + 4);
    LayoutJoined(entries, pad, Repeat(' ', settings.gutter));
    assert IndentedEntries(values, settings, prettify) == seq(|entries|, i requires 0 <= i < |entries| => pad + entries[i]);
  }

  /** With no newline inside an entry, the lines of the named form are the line
      itself for at most one entry, and otherwise `(`, each entry indented by
      the gutter plus four, and `)` indented by the gutter. */
  lemma NamedLines(values: Entries, settings: RenderSettings, prettify: string -> string)
    requires forall i :: 0 <= i < |values| ==> '\n' !in EntryString(values, i, settings, prettify)
    ensures |values| <= 1 ==> Explode(NamedString(values, settings, prettify), '\n') == [NamedString(values, settings, prettify)]
    ensures |values| >= 2 ==>
              Explode(NamedString(values, settings, prettify), '\n') ==
              ["("] + IndentedEntries(values, settings, prettify) + [Repeat(' ', settings.gutter) + ")"]
  {
    var r := NamedString(values, settings, prettify);
    if |values| <= 1 {
      ExplodeNoSep(r, '\n');
    } else {
      var padded := IndentedEntries(values, settings, prettify);
      var lines := ["("] + padded + [Repeat(' ', settings.gutter) + ")"];
      NamedStringJoined(values, settings, prettify);
      forall k | 0 <= k < |lines|
        ensures '\n' !in lines[k]
      {
        if 0 < k < |lines| - 1 {
          assert lines[k] == padded[k - 1];
        }
      }
      ExplodeJoin(lines, '\n');
    }
  }

  /** `buildNamedString`: the loop collects the entry strings one by one and
      the result is the named form. */
  method BuildNamedString(a: ArgumentList, settings: RenderSettings, prettify: string -> string) returns (r: string)
    ensures r == NamedString(a.values, settings, prettify)
  {
    var values := a.values;
    if |values| == 0 {
      return "()";
    }
    var output: seq<string> := [];
    var i := 0;
    while i < |values|
      invariant 0 <= i <= |values|
      invariant |output| == i
      invariant forall j :: 0 <= j < i ==> output[j] == EntryString(values, j, settings, prettify)
    {
      var s := Export(values[i].0, values[i].1, settings, prettify);
      if !IsList(values) {
        s := KeyString(values[i].0) + ": " + s;
      }
      output := output + [s];
      i := i + 1;
    }
    assert output == seq(|values|, j requires 0 <= j < |values| => EntryString(values, j, settings, prettify));
    if |output| == 1 {
      return "(" + output[0] + ")";
    }
    var pad := Repeat(' ', settings.gutter + 4);
    r := "(\n" + pad + Join(output, "\n" + pad) + "\n" + Repeat(' ', settings.gutter) + ")";
  }

  /** What `render()` gives: the named form when it is asked for, otherwise
      (and without options) the count form. */
  function Rendered(a: ArgumentList, format: Option<ArgumentFormat>, settings: RenderSettings,
                    prettify: string -> string): (r: string)
    ensures format == Some(NamedValues) ==> r == NamedString(a.values, settings, prettify)
    ensures format != Some(NamedValues) ==> r == CountString(a)
  {
    if format == Some(NamedValues) then NamedString(a.values, settings, prettify) else CountString(a)
  }

  /** `render()`. */
  method Render(a: ArgumentList, format: Option<ArgumentFormat>, settings: RenderSettings,
                prettify: string -> string) returns (r: string)
    ensures r == Rendered(a, format, settings, prettify)
  {
    match format.GetOr(Count)
    case Count => r := CountString(a);
    case NamedValues => r := BuildNamedString(a, settings, prettify);
  }

  /** `jsonSerialize()`, for one value: null, booleans, integers and floats as
      they are, every other value as its export. */
  function JsonValue(k: Key, v: Value, settings: RenderSettings, prettify: string -> string): (r: Json)
    ensures v.VNull? ==> r == JNull
    ensures v.VBool? ==> r == JBool(v.b)
    ensures v.VInt? ==> r == JInt(v.i)
    ensures v.VFloat? ==> r == JFloat(v.repr)
    ensures !(v.VNull? || v.VBool? || v.VInt? || v.VFloat?) ==> r == JString(Export(k, v, settings, prettify))
  {
    match v
    case VNull => JNull
    case VBool(b) => JBool(b)
    case VInt(i) => JInt(i)
    case VFloat(repr) => JFloat(repr)
    case _ => JString(Export(k, v, settings, prettify))
  }

  /** `jsonSerialize()`: the same keys in the same order, each with its JSON value. */
  function ToJson(a: ArgumentList, settings: RenderSettings, prettify: string -> string): (r: seq<(Key, Json)>)
    ensures |r| == |a.values|
    ensures forall i :: 0 <= i < |r| ==> r[i].0 == a.values[i].0
    ensures forall i :: 0 <= i < |r| ==>
              r[i].1 == JsonValue(a.values[i].0, a.values[i].1, settings, prettify)
  {
    seq(|a.values|, i requires 0 <= i < |a.values| =>
      (a.values[i].0, JsonValue(a.values[i].0, a.values[i].1, settings, prettify)))
  }

}
