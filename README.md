# Remnant trace engine, modelled in Dafny

Remnant (decodelabs/remnant) turns PHP's raw backtrace into a structured,
filterable and renderable stack trace. This project models its core:

- **Locations**: a file and line. An `eval()`'d-code file name is decoded into
  the outer path and line plus the eval line. Backslashes become slashes.
- **Class identifiers**: named (`Native`) or anonymous. An anonymous class is
  decoded from PHP's `class@anonymous<file>:<line>$<id>` name.
- **Function identifiers**:
  - global functions, namespaced functions, object and static methods;
  - closures, whose `{closure:<file>:<line>}` or `{closure:<Class>::<method>():<line>}`
    name is decoded into a location.
- **Argument lists**: positional keys renamed after the callee's parameters.
  They render as a count or as named values, and serialise to JSON.
- **Frames**: a frame is built from one backtrace record. Building decides its
  kind and identifier, shifts magic `__call`/`__callStatic` arguments, and
  extracts the call site and location. A frame also matches identifiers and
  renders with a glyph and location line.
- **Anchors**: rewind, class and function anchors. They pick where a trace
  starts.
- **Filters**: class, function, namespace, paths and vendor filters. They pick
  which frames a rendered trace shows. View options chain them.
- **Traces**:
  - the assembly loop of `Trace::fromDebugBacktrace` (proxy frames skipped,
    each record relabelled with the previous record's file and line, frames
    kept from the anchor on, the empty stack refused);
  - `fromException` and `create`;
  - the immutable array-like trace object, and its text rendering.

Modules follow the source's structure. There is one file per module:
- `outcomes.dfy`: Option, Result and the error kinds;
- `text.dfy`: the PHP string built-ins used, and decimal numbers;
- `php_values.dfy`: PHP values, ordered arrays and JSON;
- `locations.dfy`, `class_identifiers.dfy`, `reflection.dfy`,
  `function_identifiers.dfy`, `arguments.dfy`, `frames.dfy`, `anchors.dfy`,
  `filters.dfy`, `views.dfy` and `traces.dfy`.

State that the source changes in place is a class. A `Trace` holds its
frames, and `shift` and `fromException` update them. The loops of the source
are methods, each proved equal to a specification function:
- `AssembleFrames`, `NewArgumentList`, `BuildNamedString`, `NewPathsFilter`
  and `RenderLines`;
- the `Trace` constructor.

The properties of the source are then proved about those functions.

Reflection, path prettifying and path resolving are parameters:
- `Runtime` holds the functions and classes that reflection knows, and the
  prettifier;
- `NewPathsFilter` receives the optional path resolver.

### Notes on the code as written

- `Frame::fromDebugBacktrace` guards its namespace split with
  `str_contains('\\', $function)` (src/Frame.php:107). The arguments are
  swapped: it asks whether the function name occurs in a lone backslash. So the
  guard holds only for the names `""` and `"\"`, and a name such as `App\foo`
  is never split (`Frames.NamespaceGuardFires`, `Frames.SplitNamespaceAsWritten`).
  As a result, a qualified function becomes a `GlobalFunction` named `App\foo`.
  The lone name `\` becomes `NamespaceFunction("", "")`, whose reflection is
  `new ReflectionFunction('\\')`. No function has that name, so building the
  frame raises `ReflectionException` (`Frames.LoneBackslashNeedsReflection`).
- The class and function filters return `true` for a matching frame
  (src/Filter/ClassIdentifier.php:37-54, src/Filter/FunctionIdentifier.php:29-33),
  and `ViewOptions::filter` keeps the frames every filter accepts. So these two
  filters keep what matches and drop the rest (`Filters.ClassFilterKeeps`,
  `Filters.FunctionFilterKeeps`).
- `exportValue` sends integers and floats to the `get_debug_type` fallback, so
  they export as `int` and `float`, not as their digits
  (src/ArgumentList.php:172-173, `Arguments.Export`).
- The `ArgumentList` constructor reads `$function?->reflection` for every frame
  it builds. For a namespaced function that is an unguarded `ReflectionFunction`,
  and for a method of a named class an unguarded `ReflectionClass`. An unknown
  function or class there raises `ReflectionException`, and
  `Frame::fromDebugBacktrace` raises it in turn (`Frames.FromRecord`).
- The `ViewOptions` class declares only `filters` and `argumentFormat`. Argument
  and frame rendering read four more properties of it:
  - `maxStringLength`, `redact`, `gutter` and `rootPath`;
  - they can only be set as dynamic properties;
  - the model passes them as an explicit `RenderSettings` value.

## Model

| member | source | states |
|---|---|---|
| Locations.NewLocation | src/Location.php:26-40 | The stored file never holds a backslash. A plain file keeps its line and eval line. An eval file's old line becomes the eval line. |
| Locations.EvalFileDecoded | src/Location.php:31-35 | `<path>(<n>) : eval()'d code…` decodes to the path with slashes, line n, and the given line as eval line. |
| Locations.PlainFileKept | src/Location.php:31-39 | A name without the eval marker is stored with backslashes replaced and its line and eval line unchanged. |
| Locations.EvalSearchFinds | src/Location.php:31 | The greedy `.+` path settles on the last position where the eval tail matches. |
| Locations.TailAtPath | src/Location.php:31 | At the end of the path, the digits between `(` and `) : eval()'d code` are the captured line. |
| Locations.NoTailPastPath | src/Location.php:31 | No eval tail matches after the real one when the rest holds no `(`, so the greedy search cannot overshoot. |
| Locations.EqualsIsEquivalence | src/Location.php:42-52 | A null location is never equal. Equality compares file and line only, ignores the eval line, and is reflexive, symmetric and transitive. |
| Locations.Render | src/Location.php:98-109 | The text starts with the prettified file, `:` and the line. Without an eval line it is exactly that. With one it ends in ` [eval:N]`, and its length is exactly the two parts together. |
| Locations.ToJson | src/Location.php:119-131 | An object with `file` and `line`, and `evalLine` only when present, in that order. |
| ClassIdentifiers.SplitLineAndId | src/ClassIdentifier/Anonymous.php:38-46 | A successful split gives a non-empty run of digits followed by a hex identifier introduced by `$` or `0x`, together the whole tail. |
| ClassIdentifiers.SplitLineAndIdFinds | src/ClassIdentifier/Anonymous.php:38-46 | Digits followed by an identifier always split back into exactly those digits and that identifier. |
| ClassIdentifiers.FromClassString | src/ClassIdentifier/Anonymous.php:34-54 | The result is always anonymous. The location and the id are present together, and only for a name with the anonymous prefix. |
| ClassIdentifiers.FromClassStringDecodes | src/ClassIdentifier/Anonymous.php:34-54 | `class@anonymous<file>:<line>$<id>` decodes to the trimmed file, the line and the id. |
| ClassIdentifiers.FromClassStringSound | src/ClassIdentifier/Anonymous.php:34-54 | Conversely, every name that decodes with a location has that form, and the location is its trimmed file and line. |
| ClassIdentifiers.DecodeAfterPrefixSound | src/ClassIdentifier/Anonymous.php:38-46 | After the prefix, a decoded name is a newline-free file, `:`, the digits and the id, split at the last colon. |
| ClassIdentifiers.NoColonInTail | src/ClassIdentifier/Anonymous.php:38-46 | Line digits and an id hold no colon, so the last colon is the one before the line. |
| ClassIdentifiers.Create | src/Frame.php:216-226 | A name with the anonymous prefix gives an anonymous identifier decoded from it. Any other name gives a native one with that name. |
| ClassIdentifiers.EqualsProperties | src/ClassIdentifier/Anonymous.php:71-77 | Native and anonymous never compare equal. Natives compare by name. Anonymous identifiers compare by the file and line of their locations, and never when a location is absent. Equality is symmetric and transitive. |
| ClassIdentifiers.Name | src/ClassIdentifier/Anonymous.php:22-24 | A native class has its own name, and every anonymous class the name `{anonymous}`. |
| ClassIdentifiers.Render | src/ClassIdentifier/Anonymous.php:79-87 | A native name as is. An anonymous class is `{anonymous}` exactly when it has no location. A located one starts with `{anonymous:<file>:<line>`, ends with `}`, and has exactly that length plus one. |
| ClassIdentifiers.ClassReflection | src/ClassIdentifier/Anonymous.php:64-68 | Anonymous classes have no reflection here. A native class has the runtime's reflection of its name. |
| ClassIdentifiers.ResolveAll | src/Anchor/ClassIdentifier.php:25-35 | Each given class name or identifier is converted in place, in order. |
| ClassIdentifiers.EqualsAny | src/Anchor/ClassIdentifier.php:37-55 | True exactly when some listed identifier equals the class. |
| FunctionIdentifiers.Name | src/FunctionIdentifier/Closure.php:26-28 | A closure's name is `{closure}`, and every other identifier's name is its own. |
| FunctionIdentifiers.Separator | src/FunctionIdentifier/ObjectMethod.php:18-20 | `->` for object methods and `::` for static methods. |
| FunctionIdentifiers.NewObjectMethod | src/FunctionIdentifier/ClassTrait.php:46-56 | The method keeps its name. A class given by name is converted: anonymous exactly when it has the anonymous prefix, otherwise native with that name. |
| FunctionIdentifiers.NewStaticMethod | src/FunctionIdentifier/ClassTrait.php:46-56 | As for object methods, giving a static method. |
| FunctionIdentifiers.LineTail | src/FunctionIdentifier/Closure.php:45-70 | The captured line is a non-empty run of digits just before the closing brace. |
| FunctionIdentifiers.LineTailPlain | src/FunctionIdentifier/Closure.php:45-50 | `<digits>}` gives those digits. |
| FunctionIdentifiers.LineTailFinal | src/FunctionIdentifier/Closure.php:45-50 | With several `:<digits>` groups on the last line, the greedy match takes the last one. |
| FunctionIdentifiers.FunctionStringToLocation | src/FunctionIdentifier/Closure.php:42-73 | A location is found only in a name containing `{closure:`, and its file holds no backslash. |
| FunctionIdentifiers.ClosurePlainDecodes | src/FunctionIdentifier/Closure.php:45-50 | `…{closure:<file>:<line>}` decodes to that file and line. |
| FunctionIdentifiers.ClosureFinalLineDecodes | src/FunctionIdentifier/Closure.php:45-50 | When the file part is followed by further text and `:<line>`, the last line number is used. |
| FunctionIdentifiers.ClosureMethodDecodes | src/FunctionIdentifier/Closure.php:52-70 | `{closure:<Class>::<method>():<line>}` takes the file of the method from reflection. It gives no location when reflection has no method or no file. |
| FunctionIdentifiers.NoFileFormInMethodName | src/FunctionIdentifier/Closure.php:45-52 | A method-form closure name never matches the file pattern, so the method pattern decides. |
| FunctionIdentifiers.MethodFormFound | src/FunctionIdentifier/Closure.php:52-58 | The method pattern matches at the opening brace and captures class, method and line. |
| FunctionIdentifiers.ClosureNoOpening | src/FunctionIdentifier/Closure.php:42-73 | A name without `{closure:` has no location. |
| FunctionIdentifiers.FromFunctionString | src/FunctionIdentifier/Closure.php:34-40 | Always a closure, with the location decoded from the name. |
| FunctionIdentifiers.EqualsProperties | src/FunctionIdentifier/Closure.php:81-93 | Different kinds never compare equal. Methods compare by class and name, and closures by location. Equality is symmetric. |
| FunctionIdentifiers.UnlocatedAnonymousMethodNeverEqual | src/FunctionIdentifier/ClassTrait.php:58-65 | A method of an anonymous class without location equals nothing, not even itself. |
| FunctionIdentifiers.IsFunction | src/FunctionIdentifier/Closure.php:95-99 | A closure is never one of the names. Any other identifier is one exactly when its bare name is listed. |
| FunctionIdentifiers.IsFunctionNamesAsSet | src/FunctionIdentifierTrait.php:14-18 | Only which names are listed matters, not their order or repetition. |
| FunctionIdentifiers.IsInternal | src/FunctionIdentifier/GlobalFunction.php:34-51 | Only global functions are internal. Language constructs always are. Another is internal exactly when reflection reports it internal, and an unknown function is not internal. |
| FunctionIdentifiers.FunctionReflection | src/FunctionIdentifier/ClassTrait.php:32-44 | Global and namespaced functions are looked up by qualified name, and methods on the class's reflection. Closures have none. |
| FunctionIdentifiers.Namespace | src/FunctionIdentifier/ClassTrait.php:26-30 | A namespaced function gives its namespace, and a method gives its reflected class's namespace. Global functions and closures give none. |
| FunctionIdentifiers.Render | src/FunctionIdentifier/GlobalFunction.php:61-71 | A global function is its name, with `[internal] ` exactly when internal. Namespaced is exactly `ns\name` by prefix, suffix and length. A method starts with the class rendering and its separator, ends with its name, and has exactly their length. A closure is `{closure}` without location, else `{closure:<file>:<line>}`. |
| FunctionIdentifiers.GlobalJson | src/FunctionIdentifier/GlobalFunction.php:73-77 | JSON of a global function is the bare name. |
| FunctionIdentifiers.GlobalJsonUnmarked | src/FunctionIdentifier/GlobalFunction.php:61-77 | The rendering is the JSON name with the internal mark in front when internal. |
| FunctionIdentifiers.EqualsAny | src/Anchor/FunctionIdentifier.php:29-40 | True exactly when some listed identifier equals the function. |
| Arguments.NewKey | src/ArgumentList.php:34-53 | An integer key that indexes the parameter list takes that parameter's name. Every other key is kept. |
| Arguments.Rekeyed | src/ArgumentList.php:34-53 | The renamed array has distinct keys. |
| Arguments.AssignKeepsDistinct | src/ArgumentList.php:44-50 | Assigning into an array keeps its keys distinct. |
| Arguments.NewArgumentList | src/ArgumentList.php:34-53 | Without reflection the values are kept. With it, they are the renamed array. |
| Arguments.RekeyedRenamesInPlace | src/ArgumentList.php:34-53 | When the new names do not clash, every argument keeps its position and value, and its key is renamed. |
| Arguments.NewKeyOutsideKept | src/ArgumentList.php:44-50 | String keys and integer keys outside the parameter list are unchanged. |
| Arguments.CountOf | src/ArgumentList.php:63-66 | The count is the number of values. |
| Arguments.CountAfterRenaming | src/ArgumentList.php:34-66 | Renaming without clashes keeps the count. |
| Arguments.CountString | src/ArgumentList.php:80-88 | `()` exactly when there are no values, else `(...N)` with the count. |
| Arguments.Export | src/ArgumentList.php:135-177 | Redaction comes first (`*sensitive*`). Otherwise the value is exported by type: long strings cut at the maximum length with `...` and the length, and `array(n)`, class names, `resource`, bools, `null` and `int`. |
| Arguments.ExportStringShape | src/ArgumentList.php:146-158 | A string within the maximum is quoted in full. A longer one is quoted cut to the maximum, followed by `...` and its length. |
| Arguments.EntryString | src/ArgumentList.php:112-124 | A list's entry is the exported value. Any other entry is prefixed by its key and `: `. |
| Arguments.NamedString | src/ArgumentList.php:103-133 | `()` for no values, one entry inline in parentheses, several on separate indented lines closed at the gutter. |
| Arguments.BuildNamedString | src/ArgumentList.php:103-133 | The loop gives exactly the named string. |
| Arguments.IndentedEntries | src/ArgumentList.php:127-131 | One line per entry, each the entry string indented by the gutter plus four. |
| Arguments.LayoutJoined | src/ArgumentList.php:127-132 | The opening line, the padded entries and the closing line, joined by newlines, are the named layout. |
| Arguments.NamedStringJoined | src/ArgumentList.php:103-133 | The named form of several entries is exactly its lines joined by newlines. |
| Arguments.NamedLines | src/ArgumentList.php:103-133 | When no entry holds a newline, splitting the named form at newlines gives `(`, each entry indented by the gutter plus four, and `)` indented by the gutter, for two or more entries. One or no entry is one line. |
| Arguments.Rendered | src/ArgumentList.php:68-78 | The named format gives named values. Every other format, and no options, gives the count. |
| Arguments.Render | src/ArgumentList.php:68-78 | The rendering method gives exactly that text. |
| Arguments.JsonValue | src/ArgumentList.php:182-201 | Null, bools, ints and floats pass through as JSON. Every other value becomes its exported string. |
| Arguments.ToJson | src/ArgumentList.php:182-201 | The same keys in the same order, each with its value's JSON. |
| PhpValues.IndexOfKey | src/ArgumentList.php:44-50 | The found position holds the key. With no position found, no entry has it. |
| PhpValues.Assign | src/ArgumentList.php:44-50 | An existing key takes the new value in place. A new key is appended. |
| PhpValues.Renumber | src/Frame.php:146-153 | Same length and values. String keys are kept, and integer keys stay integer. |
| PhpValues.RenumberIntKeys | src/Frame.php:146-153 | After `array_shift`, a list's keys are 0, 1, … again. |
| PhpValues.ArrayShift | src/Frame.php:146-153 | The first value, or null for an empty array, and the renumbered rest. |
| Frames.CalleeName | src/Frame.php:80-87 | A missing or non-string callee is `{closure}`. |
| Frames.RecordClass | src/Frame.php:90-104 | A string class name gives its class identifier, and anything else none. |
| Frames.SplitNamespace | src/Frame.php:107-114 | As written: a name for which the guard does not fire is kept whole, without namespace. |
| Frames.NamespaceGuardFires | src/Frame.php:107-114 | The swapped guard fires exactly for the empty name and the lone backslash. |
| Frames.SplitNamespaceAsWritten | src/Frame.php:107-114 | Every other name is never split. `\` splits into empty namespace and name, and the empty name has no namespace. |
| Frames.TypeArm | src/Frame.php:119-135 | `::` or `true` selects the static arm and `->` the object arm. Anything else selects no arm. |
| Frames.KindOf | src/Frame.php:119-139 | A `{closure` name is a closure. A set type decides by its arm, and no type gives a namespaced or global function. |
| Frames.ShiftMagic | src/Frame.php:146-153 | For `__call`/`__callStatic` the real name is shifted off the arguments. Any other call keeps both. |
| Frames.BuildFunction | src/Frame.php:155-171 | No arm raises an invalid-type error. A method without class and a namespaced function without namespace raise errors. Each arm builds its identifier from the name. |
| Frames.ExtractLocation | src/Frame.php:184-214 | A location exactly when file is a string and line an int, built from them. |
| Frames.FromRecord | src/Frame.php:73-179 | A frame built from a record has the call site from callFile/callLine, the location from file/line, and arguments renamed by the function's reflection. No frame is built whose reflection would throw. |
| Frames.FromDebugBacktrace | src/Frame.php:73-179 | The method gives exactly the frame or error of the record. |
| Frames.ClosureNameWins | src/Frame.php:137-139 | A `{closure…` name always builds a closure decoded from the name. |
| Frames.MissingCalleeIsClosure | src/Frame.php:80-87 | A record without a callee builds a closure without location. |
| Frames.MethodRecords | src/Frame.php:119-171 | With `::` or `->`, a missing class is an error. A named class that reflection does not know raises the reflection error. Otherwise the record builds a static or object method of that class. |
| Frames.UntypedIsGlobal | src/Frame.php:107-171 | An untyped record with an ordinary name builds a global function of that very name, even a qualified one. |
| Frames.LoneBackslashNeedsReflection | src/Frame.php:107-178 | The callee `\` gives the namespaced function with empty namespace and name. Its reflection looks up the function `\`: without it, building raises the reflection error. |
| Frames.InvalidTypeRejected | src/Frame.php:119-135 | A type that is neither `::`, `->` nor true is rejected. |
| Frames.MagicCallShifts | src/Frame.php:146-153 | A magic call without a string first argument is a type error. For an unknown named class it raises the reflection error. Otherwise it reports the first argument as method name and the rest as arguments. |
| Frames.FrameClass | src/Frame.php:216-226 | Only method frames have a class, the method's own. |
| Frames.Matches | src/Frame.php:244-272 | True exactly when some identifier matches: an equal function, or a class equal to the method frame's class. |
| Frames.AsIdentifiers | src/Frame.php:244-272 | Function identifiers are wrapped one to one. |
| Frames.MatchesFunctionsOnly | src/Frame.php:244-272 | Matching against functions alone is the same as an equal function being among them. |
| Frames.Shown | src/Frame.php:278 | A frame shows its call site, else its location. |
| Frames.Glyph | src/Frame.php:282-297 | Internal first, then a file under `/vendor/`, then a file outside the root when a root is set, else the project glyph. Each condition gives its glyph exactly. |
| Frames.RenderedLayout | src/Frame.php:274-301 | Unlocated, the text is function and arguments. Located, it opens with one glyph, a space, the function and arguments and a newline, ends with the gutter and the location, and has exactly the length of those parts. |
| Frames.Render | src/Frame.php:274-301 | The method gives exactly the rendered text. |
| Anchors.NewClassAnchor | src/Anchor/ClassIdentifier.php:25-35 | Names converted in place, in order. |
| Anchors.RewindByIndex | src/Anchor/Rewind.php:22-27 | A rewind looks only at the index and accepts exactly from its offset on. |
| Anchors.ClassAnchorAccepts | src/Anchor/ClassIdentifier.php:37-55 | Independent of the index. Never a non-method frame. A method frame exactly when its class equals a listed one, so an empty list accepts nothing. |
| Anchors.FunctionAnchorAccepts | src/Anchor/FunctionIdentifier.php:29-40 | Independent of the index. Exactly when the frame's function equals a listed one. |
| Anchors.AnchorOrderIrrelevant | src/Anchor/ClassIdentifier.php:37-55 | Order and repetition in an anchor's list do not matter. |
| Anchors.CreateAnchor | src/Trace.php:68-83 | No anchor becomes a rewind by one, and a rewind is moved one further. Other anchors are kept. |
| Anchors.CreateAnchorShifts | src/Trace.php:71-76 | The adjusted rewind accepts index i+1 exactly when the original accepted i. |
| Filters.NewClassFilter | src/Filter/ClassIdentifier.php:25-35 | Names converted in place, in order. |
| Filters.NewPathsFilter | src/Filter/Paths.php:26-36 | Each path is resolved when a resolver is given and kept otherwise, in order. |
| Filters.InAnyNamespace | src/Filter/NamespaceIdentifier.php:31-55 | True exactly when the namespace equals a listed one or lies below it. |
| Filters.UnderAnyPath | src/Filter/Paths.php:40-56 | True exactly when the file starts with a listed path. |
| Filters.ClassFilterKeeps | src/Filter/ClassIdentifier.php:37-54 | As written, the filter keeps exactly the method frames of a listed class. |
| Filters.FunctionFilterKeeps | src/Filter/FunctionIdentifier.php:29-33 | As written, the filter keeps exactly the frames of a listed function. |
| Filters.NamespaceFilterKeeps | src/Filter/NamespaceIdentifier.php:31-55 | Global functions, closures and frames without a namespace are kept, and so is everything for an empty list. Others are dropped exactly when their namespace equals a listed one or lies below it. |
| Filters.TextualPrefixIsNoNamespace | src/Filter/NamespaceIdentifier.php:31-55 | `App\FooBar` is not in `App\Foo`, while `App\Foo` and `App\Foo\Bar` are. |
| Filters.PathsFilterKeeps | src/Filter/Paths.php:40-56 | Frames without a call site are kept. Others are dropped exactly when their file starts with a listed path, and only the call site counts. |
| Filters.VendorFilterKeeps | src/Filter/Vendor.php:17-21 | Frames are dropped exactly when their call site's file contains `/vendor/`. |
| Filters.RelativeVendorKept | src/Filter/Vendor.php:17-21 | A `vendor/` not preceded by a slash does not drop the frame. |
| Filters.NoStartWithoutFirst | src/Filter/Vendor.php:17-21 | A needle cannot occur where its first character does not. |
| Views.Default | src/ViewOptions.php:17-21 | No filters, and arguments as a count. |
| Views.Filter | src/ViewOptions.php:23-33 | A frame passes exactly when every filter accepts it, so with no filters every frame passes. |
| Views.AddingFilterNarrows | src/ViewOptions.php:23-33 | Adding a filter passes exactly the frames both the old options and the new filter accept. |
| Views.FilterOrderIrrelevant | src/ViewOptions.php:23-33 | Filter order and repetition do not matter. |
| Traces.IsProxy | src/Trace.php:101-108 | A missing file is not a proxy, and a string file is one exactly when it ends with the proxy path. Any other file raises a type error. |
| Traces.Relabel | src/Trace.php:110-113 | The record's own file and line become the call site, and the carried file and line its location. Nothing else changes. |
| Traces.FrameBuilder | src/Trace.php:115-116 | Each record is built by `Frame::fromDebugBacktrace`. |
| Traces.Assemble | src/Trace.php:129-133 | An assembled trace is never empty. |
| Traces.AssembleFrames | src/Trace.php:88-136 | The loop gives exactly the assembled frames or the first error. |
| Traces.RunErrPersists | src/Trace.php:98-127 | The first exception ends the loop for good. |
| Traces.LastNonProxy | src/Trace.php:98-113 | The last non-proxy record before n, or none when every earlier record is a proxy. |
| Traces.PrevFileLine | src/Trace.php:92-113 | The carried file and line are those of the last earlier non-proxy record, else of the first record. |
| Traces.PrevFileLineStep | src/Trace.php:110-113 | A proxy leaves the carried file and line alone, and any other record replaces them with its own. |
| Traces.AnchorSeen | src/Trace.php:96-124 | The anchor counts as found once some earlier frame was accepted, or always without an anchor. |
| Traces.NonProxyIndices | src/Trace.php:101-108 | Only positions of non-proxy records. |
| Traces.NonProxyIndicesIncreasing | src/Trace.php:98-127 | They are in increasing order. |
| Traces.NonProxyIndicesComplete | src/Trace.php:98-127 | Every non-proxy position is among them. |
| Traces.Between | src/Trace.php:98-127 | One frame per non-proxy record in the range, each built from the relabelled record, in order. |
| Traces.RunComputes | src/Trace.php:98-127 | When every frame builds, the loop's state is the carried file and line, the anchor status and the kept frames. |
| Traces.StepComputes | src/Trace.php:98-127 | One turn moves that state from n-1 records to n. |
| Traces.RunFails | src/Trace.php:98-127 | When some frame cannot be built, or some file is not a string, the loop fails. |
| Traces.StepFails | src/Trace.php:101-116 | The first record that fails makes its turn fail. |
| Traces.AssembleIsKept | src/Trace.php:88-136 | Success exactly when everything builds and something is kept. The result is the kept frames, and an empty result is the empty-stack error. |
| Traces.KeptWithoutAnchor | src/Trace.php:96 | Without an anchor every non-proxy frame is kept. |
| Traces.BetweenStep | src/Trace.php:126 | Each non-proxy record appends its frame. |
| Traces.KeptFromAnchor | src/Trace.php:118-124 | Frames before the first accepted one are dropped. From it on, every non-proxy frame is kept. |
| Traces.NeverAcceptedKeepsNothing | src/Trace.php:118-124 | An anchor that accepts nothing keeps nothing. |
| Traces.OnlyProxiesIsEmpty | src/Trace.php:129-133 | An empty backtrace, or one of proxies only, is the empty-stack error. |
| Traces.OnlyProxiesKeepNothing | src/Trace.php:101-108 | Proxies alone keep no frame. |
| Traces.FrameAtLocations | src/Trace.php:110-116 | A kept frame's call site is its record's own file and line, and its location is the carried one. |
| Traces.ExceptionFrameRecord | src/Trace.php:52-63 | The prepended record is the exception class's `__construct` at the raise point, with message, code and previous as arguments. |
| Traces.ExceptionFrameBuilds | src/Trace.php:52-63 | That record builds exactly when reflection knows the exception's class, else it raises the reflection error. The frame is the object method `__construct` of the exception class, with the call site at the raise point and no location. |
| Traces.ExceptionFrame | src/Trace.php:52-63 | The prepended frame, with its arguments renamed by reflection. |
| Traces.LabelShape | src/Trace.php:191-202 | Every label is as wide as the decimal count plus one. It is the number n-k right-aligned with spaces, and reads back as that number. |
| Traces.ShowsFor | src/Trace.php:197 | A frame is shown exactly when options are given and they pass it. |
| Traces.TextsFor | src/Trace.php:201 | Each shown frame is rendered with the options' argument format, or the default one. |
| Traces.Line | src/Trace.php:194-203 | A frame's line is empty exactly when it is not shown. |
| Traces.LineShape | src/Trace.php:202 | A shown frame's line starts with its label and `: `, and ends with the frame text and a newline. |
| Traces.LineShown | src/Trace.php:202 | A shown frame's line is label, `: `, frame text and newline. |
| Traces.NothingShownNoText | src/Trace.php:194-205 | When no frame is shown, the text is empty. |
| Traces.NoOptionsNoText | src/Trace.php:197 | Without options, or when no frame passes, the text is empty. |
| Traces.ShownCount | src/Trace.php:194-203 | At most every frame is shown. |
| Traces.UnfilteredShowsAll | src/Trace.php:197 | Options without filters show every frame. |
| Traces.RenderLines | src/Trace.php:194-205 | The loop gives exactly the trace text. |
| Traces.Trace.constructor | src/Trace.php:139-145 | The trace holds exactly the given frames, in order. |
| Traces.Trace.FromDebugBacktrace | src/Trace.php:88-136 | A new trace with exactly the assembled frames, never empty, or the assembly's error. |
| Traces.Trace.Create | src/Trace.php:68-83 | As `fromDebugBacktrace` with the anchor moved past `create`'s own frame. |
| Traces.Trace.FromException | src/Trace.php:42-66 | The exception's trace with its constructor frame in front. Otherwise the assembly's error, or the reflection error for a class reflection does not know. |
| Traces.Trace.Count | src/Trace.php:182-185 | The number of frames. |
| Traces.Trace.GetFrame | src/Trace.php:154-158 | The frame at a position in range, none outside it. |
| Traces.Trace.GetFirstFrame | src/Trace.php:149-152 | The first frame, none for an empty trace. |
| Traces.Trace.OffsetExists | src/Trace.php:234-238 | True exactly when a frame exists there. |
| Traces.Trace.Location | src/Trace.php:38-40 | The first frame's location, none for an empty trace. |
| Traces.Trace.Shift | src/Trace.php:160-163 | Removes and gives the first frame, and does nothing to an empty trace. |
| Traces.Trace.OffsetSet | src/Trace.php:215-220 | Always refused: the trace is immutable. |
| Traces.Trace.OffsetUnset | src/Trace.php:243-247 | Always refused: the trace is immutable. |
| Traces.Trace.Render | src/Trace.php:187-206 | The rendering method gives exactly the trace text. |
| Text.NatToStringRoundTrip | src/Trace.php:191-202 | A decimal label reads back as its number. |
| Text.NatToStringMonotone | src/Trace.php:191-192 | A smaller number never has more digits, so the pad width fits every label. |
| Text.Trim | src/ClassIdentifier/Anonymous.php:41 | The trimmed text is a slice of the input. What is cut from either end is only `trim` characters, and the result neither starts nor ends with one. |
| Text.ExplodeJoin | src/ArgumentList.php:128-132 | Splitting pieces joined by a separator none of them holds gives back the pieces. |
| Text.JoinExplode | src/Frame.php:108-114 | Joining the pieces of a split with the separator gives back the string. |

## Left out

- Backtrace capture is left out. `Frame::create` and the `debug_backtrace()` call inside `Trace::create` depend on the runtime. Records are a parameter.
- Reflection is a parameter (`Runtime`). A `ReflectionException` from the unguarded reflection of a namespaced function or a named class is the error `ReflectionFailure`. The guarded lookups give absent reflection. The reflection object of an anonymous class is modelled as absent.
- `FunctionIdentifiers.Namespace`: for a method of a named class that reflection does not know, it gives no namespace where the source raises `ReflectionException`. A frame from a backtrace record never holds such a method, because building it raises first.
- Path prettifying (Monarch) and the path resolver of the paths filter are parameters.
- `Location::getPrettyFile`'s fallback to `getPackagePath` is left out. It probes the file system for `composer.json`. The prettifier parameter stands for the whole of `getPrettyFile`.
- `Locations.NewLocation` does not model PCRE's `$` matching before a trailing newline. The eval pattern has no `$`, and the other two patterns are modelled as matching only at the true end of the name.
- `Arguments.Export` treats floats, dates and resources as opaque values carrying their text. No floating-point formatting is modelled. Strings are measured in characters, which stand for `mb_strlen`'s code points.
- The `InlineValues` format is left out (`buildInlineString`, src/ArgumentList.php:90-101). It calls the three-parameter `exportValue` with two arguments, the value in the key's place and the options in the value's place. As written it therefore exports the options object for every argument, or raises a type error.
- A non-array `args` field of a backtrace record is left out. The model takes `args` as an optional ordered array.
- `Frames.TypeArm` decides PHP's loose `switch` comparison only for strings and `true`. Other values select no arm.
- `Frame::jsonSerialize` and `Trace::jsonSerialize` are left out. They only assemble the parts whose JSON is modelled.
- `Trace::getIterator` and `__debugInfo` are left out. The frames sequence is the iteration.
- The `PreparedTraceException` short-circuit of `Trace::fromException` is left out. It returns the exception's own prepared trace.
- `Anchors.CreateAnchor` models the clone of the anchor passed to `Trace::create` as a new value. Object identity is not modelled.
- `Traces.AssembleFrames` takes the frame builder as a parameter. `Traces.FrameBuilder` instantiates it with `Frame::fromDebugBacktrace`, the builder `fromDebugBacktrace` uses.
- `Traces.RenderLines` takes the show test and the frame text as parameters. `Traces.ShowsFor` and `Traces.TextsFor` instantiate them with the view options.
- The anchor is given the record's position in the backtrace as its index.
- `Arguments.ToJson` receives the render settings explicitly. The source uses a default `ViewOptions`.
- `FunctionIdentifiers.IsInternal` is false for every identifier that is not a global function. This is an assumption: only `GlobalFunction` defines `isInternal`, yet `Frame::render` calls it on every located frame (src/Frame.php:283), which fails as written for any other kind.
- Conversions of digit strings to integers (`(int)`) saturate at `PHP_INT_MAX`. No other integer width matters to the model.
