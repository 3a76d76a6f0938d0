# flagstruct, modelled in Dafny

flagstruct is a Go library. It defines command-line flags from the `flag`
struct tags of a Go struct and, after parsing, copies the parsed values back
into that struct. This project models its two core files and proves
properties of the model.

- `decode.go` extracts the schema: the `flag` tag grammar (`parseFlagKey`),
  the flag-name rewrite (`rewriteName`), the supported-kind filter
  (`validKind`), the coercion of default literals, and the walk over a struct
  type (`parseType`). The walk yields the ordered list of flag descriptors
  (`flg`).
- `flagstruct.go` binds and populates: `Extend` and `New` check that the
  argument points to a struct, extract the descriptors, and define one typed
  flag per descriptor on a `flag.FlagSet`. `Parser.Parse` runs the flag engine
  unless the set is already parsed, then writes every slot's current value
  into the struct at the descriptor's index path.

The project has six modules, one per file:

| file | module | contents |
|---|---|---|
| `wrappers.dfy` | `Wrappers` | `Option` and `Result` |
| `gotext.dfy` | `GoText` | the Go `strings`/`unicode` routines the tag grammar uses: `TrimSpace`, `SplitN`, `ToLower`, `Replace`, the UTF-8 width of a rune |
| `strconv.dfy` | `StrConv` | `strconv.ParseBool`, and `ParseUint`/`ParseInt` in base 10, with their `*NumError` values and error texts |
| `reflection.dfy` | `Reflect` | kinds, struct types and fields, values, and reading or writing a field by index path (`FieldByIndex(...).Set`) |
| `decode.dfy` | `Decode` | `decode.go` |
| `flagstruct.dfy` | `FlagStruct` | `flagstruct.go`, and the part of `flag.FlagSet` it relies on |

How each Go construct is modelled:

- `parseType` is a loop with an explicit recursion into sub-structs.
  - It is modelled by the method `Decode.ParseType`, with the same loop and
    recursion.
  - The method is proved equal to the recursive function `Decode.Extract`.
  - `Extract` is in turn proved equal to an independent reference definition:
    `Leaves` lists every leaf index path in declaration order, and
    `DescribeAll` describes the field at each path.
- `Parser`, `flag.FlagSet` and the target struct change in place, so they are
  classes.
  - `Parser.Parse` and its write-back loop `Populate` are proved against the
    function `WriteBack`.
  - `Extend` and `Register` are proved against the function `Collect`, which
    folds the descriptors into the flag set's tables.

The model follows the code, not the package documentation, where the two
differ. The documentation (doc.go:23-28) says that a tag `<rune>:<spec>`
switches the separator to `<rune>`. In the code (decode.go:171-197) the switch
happens differently:

- The `<rune>:` prefix is not removed before splitting. So
  `"|:name|a,b,c|description"` gives an empty name, the default `":name"` and
  the description `"a,b,c|description"`. `Decode.DocSeparatorTag` proves
  this. `Decode.CustomSeparatorEmptyName` proves the general case: with any
  custom separator the name is empty, and unless the separator is `':'` the
  default begins with `':'`. `Decode.ExampleExtract` shows it on the package's
  own example.
- `"::name:a,b,c:description"` gives an empty name, an empty default and the
  description `"name:a,b,c:description"`. `Decode.ColonSeparatorTag` proves
  this.
- The separator changes only when the first rune is one byte wide, because
  the code looks for `':'` at byte offset 1. A tag starting with `⊕:` still
  splits on `','`. `Decode.MultiByteRuneKeepsComma` and
  `Decode.MultiByteRuneTag` prove this.
- A tag `flag:""` (doc.go:20-21) registers nothing, because decode.go:56
  requires a non-empty tag. `Decode.ExampleExtract` shows this for
  `Simple_flag`.

## Model

| member | source | states |
|---|---|---|
| GoText.TrimSpace | decode.go:66 | The result is the slice of the input between a run of leading and a run of trailing white space. It is empty iff the input is all white space. Otherwise it starts and ends with a non-space, so exactly the surrounding white space is dropped. An input without surrounding space is returned unchanged. |
| GoText.SplitN | decode.go:185 | There are min(separator count + 1, n) parts. Joined with the separator they give back the input. No part except the last contains the separator, and the last does not either when fewer than n parts came out. |
| GoText.SplitN3 | decode.go:185-195 | Splitting into at most three parts: the first part is the text before the first separator. The whole string is rebuilt from one, two or three parts according to the separator count. |
| GoText.ToLower | decode.go:200 | Same length, each character lowered, no upper-case ASCII letter left. |
| GoText.ReplaceAll | decode.go:200 | Same length, every occurrence of one character replaced by another, none left. |
| GoText.Index | decode.go:185 | The position of the first occurrence of a character, or none iff the character does not occur. |
| GoText.Utf8Width | decode.go:174-184 | A rune takes 1 to 4 bytes, and 1 exactly when it is ASCII. |
| StrConv.ParseBool | decode.go:86 | Succeeds iff the input is one of the twelve spellings. The value is true iff the spelling is a true one. Otherwise it fails with a syntax `NumError` naming `ParseBool` and the input. |
| StrConv.NumErrorText | decode.go:86-138 | The text of a `*NumError` begins with `strconv.`. |
| StrConv.ParseUint | decode.go:116 | A successful parse is below 2^bits. Every error names `ParseUint` and carries the input. |
| StrConv.ParseInt | decode.go:96 | A successful parse lies in [-2^(bits-1), 2^(bits-1)). Every error names `ParseInt` and carries the input. |
| StrConv.ParseUintMeaning | decode.go:116 | `ParseUint(s, 10, bits)` succeeds iff `s` is a non-empty run of decimal digits whose value is below 2^bits, and then returns that value. An out-of-range number fails with `ErrRange`. A leading non-digit fails with `ErrSyntax`. |
| StrConv.ParseIntMeaning | decode.go:96 | `ParseInt(s, 10, bits)` succeeds iff `s` is an optional sign and a non-empty run of digits whose value lies in [-2^(bits-1), 2^(bits-1)). It then returns the signed value. |
| StrConv.ScanDigitsMeaning | decode.go:96-130 | The digit scanner accepts exactly the digit strings whose value stays under the bound, and returns their decimal value. |
| Reflect.TypeOf | flagstruct.go:53-70 | Every flag value has one of the seven supported kinds, or is a `time.Duration`. |
| Reflect.SetAt | flagstruct.go:94 | Setting a reachable field at an index path makes that path hold the new value. An unreachable path changes nothing. |
| Reflect.GetSetOther | flagstruct.go:92-95 | Setting one field leaves every disjoint index path as it was. |
| Reflect.SetSetCommute | flagstruct.go:92-95 | Setting two disjoint fields gives the same struct in either order. |
| Reflect.SetSetSame | flagstruct.go:92-95 | Of two settings of the same field, the last wins. |
| Reflect.SetGetSame | flagstruct.go:92-95 | Setting a field to the value it already holds changes nothing. |
| Reflect.TypedGet | flagstruct.go:93-94 | In a well-typed value, every field the type has is present and well typed. |
| Reflect.TypedSet | flagstruct.go:94 | Setting a field to a value of the field's type keeps the struct well typed. |
| Reflect.WfFieldAt | decode.go:41-43 | A field reached inside a well-formed type has a well-formed type. |
| Decode.Separator | decode.go:172-183 | When the first rune is one byte wide and followed by `':'`, the separator is that rune. A separator other than `','` arises only that way, and is then an ASCII character. |
| Decode.FlagKey | decode.go:171-197 | Neither the name nor the default contains the separator. A tag with fewer than two separators has an empty description. A tag with none also has an empty default. |
| Decode.ParseFlagKey | decode.go:171-197 | The imperative scan of the first two runes, then the split, returns exactly the parts of `FlagKey`. |
| Decode.FlagKeySplit | decode.go:171-197 | The name is the trimmed text before the first separator. The default is the text between the first and second separators. The description is the rest. Missing parts are empty. The tag is rebuilt from its parts with one or two separators. |
| Decode.FlagKeyAt | decode.go:185-195 | Given the positions of the first two separators, the three parts are the trimmed prefix, the middle, and the rest. |
| Decode.FlagKeyCompose | decode.go:185-195 | Parsing a tag composed of name, default and description (the first two free of the separator) gives the trimmed name and the same default and description back. |
| Decode.CustomSeparatorEmptyName | decode.go:174-188 | Whenever the first rune is one byte wide and followed by `':'`, the separator is that rune and the name is empty. Unless that rune is `':'`, the default begins with `':'`. |
| Decode.MultiByteRuneKeepsComma | decode.go:174-184 | A first rune wider than one byte followed by `':'` does not change the separator from `','`. |
| Decode.DocSeparatorTag | decode.go:171-197 | The documentation's tag `"|:name|a,b,c|description"` gives no name, the default `":name"` and the description `"a,b,c|description"`. |
| Decode.ColonSeparatorTag | decode.go:171-197 | `"::name:a,b,c:description"` gives no name, no default and the description `"name:a,b,c:description"`. |
| Decode.MultiByteRuneTag | decode.go:171-197 | `"⊕:name⊕a,b,c⊕description"` is split on commas. |
| Decode.RewriteName | decode.go:199-201 | Same length. Each `_` becomes `-`, and every other character is lowered in place. So no `_` and no upper-case ASCII letter remain. |
| Decode.RewriteNameIdempotent | decode.go:199-201 | Rewriting a rewritten name changes nothing. |
| Decode.NameRewrite | decode.go:60-62 | The field `Name` gets the flag name `name`. |
| Decode.ExampleRewrite | decode.go:60-62 | The field `Simple_flag` would get the flag name `simple-flag`. |
| Decode.ValidKindIsFlagKind | decode.go:157-169 | A kind is accepted iff some flag value has that kind. |
| Decode.Coerce | decode.go:64-142 | A successful coercion of a default literal yields a value of exactly the field's type, with a `time.Duration` told apart from `int64`. |
| Decode.CoerceKind | decode.go:78-141 | Per kind, a successful coercion yields a value of that kind. |
| Decode.CoerceNumber | decode.go:91-141 | A successful numeric coercion yields a value of the requested kind. |
| Decode.CoerceBlank | decode.go:65-69 | A string field keeps the untrimmed literal. Any other field with a blank literal gets its zero value. |
| Decode.CoerceBool | decode.go:81-90 | A bool default is accepted iff it is blank or one of the twelve spellings. It is true iff it is a true spelling. |
| Decode.CoerceSigned | decode.go:91-110 | An `int`/`int64` default is accepted iff the trimmed literal is an optional sign and digits within the range of the width. `int` uses the platform width. |
| Decode.CoerceSignedLit | decode.go:91-110 | An `int`/`int64` default is the signed parse of the trimmed literal, at the platform width for `int` and at 64 bits for `int64`. |
| Decode.SignedLitMeaning | decode.go:96-100 | The signed parse succeeds exactly on in-range signed decimals and returns their value. |
| Decode.CoerceUnsigned | decode.go:111-130 | A `uint`/`uint64` default is accepted iff the trimmed literal is digits below 2^width, and then holds that value. |
| Decode.CoerceUnsignedRejectsSign | decode.go:116-126 | An unsigned default with a leading sign is rejected. |
| Decode.PrefixAllOrder | decode.go:47-55 | Prefixing the sub-descriptors with the field's position keeps their number and each one's name, default and description. Each new path is the position followed by the old path. Two prefixed paths are in declaration order iff the old paths were. |
| Decode.AppendPrefixed | decode.go:47-55 | The copy loop appends exactly the prefixed sub-descriptors. |
| Decode.Describe | decode.go:56-150 | A tagged field has a descriptor iff the tag's default literal coerces. The descriptor then records the given index path and the tag's description. |
| Decode.DescribeField | decode.go:56-150 | The imperative treatment of one tagged field gives the descriptor `Describe` specifies. |
| Decode.DescribeMeaning | decode.go:56-150 | A tagged field's descriptor exists iff its default coerces. The default is the coerced value, of the field's type. The description is the tag's. The index path is the field's. The name is the tag's name, or the rewritten field name when the tag has none, and always the rewritten name with a custom separator. Coercion errors pass through unchanged. |
| Decode.DescriberStamps | decode.go:149 | A descriptor depends on its index path only by recording it. |
| Decode.ExtractStep | decode.go:33-151 | One loop step: unexported or untagged fields contribute nothing. A struct field contributes its sub-descriptors, prefixed, or its wrapped error. A tagged field contributes its descriptor, or its wrapped error. |
| Decode.ExtractFrom | decode.go:31-155 | Every error of the walk over the fields from a given position on carries the `flagstruct: ` prefix. |
| Decode.Extract | decode.go:31-155 | Every error `parseType` returns carries the `flagstruct: ` prefix. |
| Decode.ParseType | decode.go:31-155 | The loop over fields, with recursion into exported struct fields, returns exactly `Extract(t)`: the descriptors, or the first error. |
| Decode.LeavesCharacterized | decode.go:33-56 | A path is listed among the leaves iff it reaches, through exported struct fields, an exported tagged field of a supported kind. |
| Decode.LeavesOrdered | decode.go:33-55 | The leaf paths come in strictly increasing declaration order. |
| Decode.ExtractIsDescribeAll | decode.go:31-155 | The walk equals describing the field at every leaf path in order. |
| Decode.DescribeAllMeaning | decode.go:43-46 | Describing a list of paths succeeds iff every field is described. Success gives one descriptor per path. Failure gives the first failing field's error, wrapped once per struct level above it. |
| Decode.ExtractSchema | decode.go:31-155 | The extraction succeeds iff every leaf field's default coerces. It then yields one descriptor per leaf, in declaration order, each at its leaf's path, with a default of the field's type, and no two paths overlapping. Every error carries the `flagstruct: ` prefix. |
| Decode.Errw | error.go:12-14 | The wrapped text is the `flagstruct: ` prefix followed by the original error's text. |
| Decode.Wrapped | error.go:12-14 | An error wrapped at least once starts with the library prefix. |
| Decode.ExampleNameTag | flagstruct_test.go:11 | The tag `"|:name|Johnson, Rick|your name"` gives no name, the default `":name"` and the description `"Johnson, Rick|your name"`. |
| Decode.ExampleOnTag | flagstruct_test.go:14 | The tag `"on,,activate?"` gives the name `on`, an empty default and the description `activate?`. |
| Decode.ExampleNameFlag | flagstruct_test.go:11 | The field `Name` is described as the string flag `name` with default `":name"`. |
| Decode.ExampleOnFlag | flagstruct_test.go:14 | The field `On` is described as the bool flag `on` with default false. |
| Decode.ExampleNameKey | flagstruct_test.go:11 | The parts of the `Name` tag. |
| Decode.ExampleLeaves | flagstruct_test.go:9-17 | In the example struct only `Name` ([0]) and `Sub.On` ([2, 0]) are leaves. |
| Decode.ExampleSubWalk | flagstruct_test.go:13-16 | The walk over `Sub` yields the descriptor of `On` alone, because `Skip` has no tag. |
| Decode.ExampleOnDescribed | flagstruct_test.go:14 | Inside `Sub`, `On` is described as `on`, default false. |
| Decode.ExampleWalk | flagstruct_test.go:9-17 | The walk over the example struct yields `Name`'s descriptor, then `On`'s at path [2, 0]. `Simple_flag`, tagged `""`, yields nothing. |
| Decode.ExampleExtract | flagstruct_test.go:9-25 | `Extract` on the example struct yields exactly two descriptors: `name` (default `":name"`, description `"Johnson, Rick|your name"`, path [0]) and `on` (default false, description `activate?`, path [2, 0]). |
| FlagStruct.ApplyKeeps | flagstruct.go:87 | Assignments of well-typed values to defined flags keep the set of flags and each slot's type. |
| FlagStruct.ApplyUnnamed | flagstruct.go:87 | A flag the run does not assign keeps its slot value. |
| FlagStruct.ApplyLastWins | flagstruct.go:87 | A flag holds the value of its last assignment. |
| FlagStruct.FlagSet.constructor | flagstruct.go:21 | A new flag set has the given name, is not parsed, and has no flags. |
| FlagStruct.FlagSet.Define | flagstruct.go:55-69 | Defining a new flag records its usage and default and starts its slot at the default. Nothing else changes. |
| FlagStruct.FlagSet.Parse | flagstruct.go:87 | The set becomes parsed. The run's assignments are performed in order. The run's error is returned. |
| FlagStruct.Target.constructor | flagstruct.go:33-40 | The target struct holds a value of its type. |
| FlagStruct.WriteBack | flagstruct.go:92-95 | The write-back loop leaves every index path that overlaps no descriptor's path as it was. |
| FlagStruct.WriteBackStores | flagstruct.go:92-95 | After the write-back each descriptor's field holds its slot's value, and the struct is still well typed. |
| FlagStruct.WriteBackFixed | flagstruct.go:92-95 | Writing back into a struct that already holds every slot's value changes nothing. |
| FlagStruct.WriteBackIdempotent | flagstruct.go:92-95 | A second write-back with the same slots gives the same struct. |
| FlagStruct.WriteBackDefaults | flagstruct.go:49-95 | With no flag given, every descriptor's field receives its declared default, whatever other flags the set held. |
| FlagStruct.ExtractPaths | flagstruct.go:44 | The extracted descriptors sit exactly at the leaf paths, in order. |
| FlagStruct.SchemaFits | flagstruct.go:44 | A successful extraction fits the struct type: each path reaches a field of the default's type, and the paths are ordered. |
| FlagStruct.ExampleSkipUntouched | flagstruct_test.go:15-22 | Whatever the slots hold, `Sub.Skip` is never written. |
| FlagStruct.CollectKeys | flagstruct.go:50-71 | The table has exactly the descriptor names as keys. |
| FlagStruct.CollectMeaning | flagstruct.go:50-71 | With distinct names, each descriptor's name maps to its own entry. |
| FlagStruct.CollectFresh | flagstruct.go:50-71 | A name no descriptor has is not in the table. |
| FlagStruct.Register | flagstruct.go:49-71 | Each descriptor is defined on the flag set, in order, with its description and typed default. The table maps each name to its slot's type. |
| FlagStruct.Errf | error.go:8-10 | The error text is the `flagstruct: ` prefix, then the message, then the formatted kind. |
| FlagStruct.Extend | flagstruct.go:31-74 | A non-pointer is rejected with `errf("v must be pointer to struct, got %s")`. A pointer to a non-struct is rejected with `"... got pointer to %s"`. An extraction error is returned as it is. On every error the flag set is untouched. Success happens iff none of these apply. It then gives a parser over the same flag set and target, with the extracted descriptors, each defined with its default, and the slot-type table. |
| FlagStruct.New | flagstruct.go:20-23 | `New` is `Extend` on a fresh, unparsed flag set with the given name. It has the same three error results. On success the set holds exactly the descriptors' flags, each slot holds its default, and the table maps each name to its slot's type. |
| FlagStruct.Parser.constructor | flagstruct.go:73 | The parser holds the flag set, descriptors, target and table it was given. |
| FlagStruct.Parser.Parse | flagstruct.go:85-98 | On a set already parsed the engine is skipped and no error is returned. Otherwise the engine's assignments are performed and its error is returned, with the struct untouched. Without an error every descriptor's field holds its slot's current value. The parser stays valid. |
| FlagStruct.Parser.Populate | flagstruct.go:92-95 | The loop sets each descriptor's field to its slot's value, in order. The result is `WriteBack`, and the struct stays well typed. |
| FlagStruct.ExampleEngine | flagstruct_test.go:31 | Assigning `on` and then `name` stores both values. |
| FlagStruct.ExampleWriteBack | flagstruct_test.go:31-45 | The write-back of the two example descriptors sets `Name` and `Sub.On` and leaves `Simple_flag` and `Sub.Skip` as they were. |
| FlagStruct.ExampleParse | flagstruct_test.go:31-45 | `Parse(["-on", "-name", "John", "foo"])` over two distinctly named descriptors at `Name` and `Sub.On`, whatever the slots held before, leaves `Name` = "John" and `Sub.On` = true. `Simple_flag` and `Sub.Skip` keep the caller's values. |

## Left out

- Go's `reflect`: only the part of it the core uses is modelled (`Reflect`). Struct types are given as values, not read from Go code. A struct's fields are given with their exported bit and `flag` tag already extracted.
- Named types whose underlying type is a supported primitive: they are modelled as their underlying type. The model does not capture that writing a plain `string` into a field of a named string type panics in `reflect` (flagstruct.go:94).
- `strconv.ParseFloat` and `time.ParseDuration`: their grammars are not reimplemented. They are functions in the `Platform` parameter.
- `intSize`, set from `runtime.GOARCH` (decode.go:21-29): also a `Platform` parameter, restricted to 32 or 64.
- `GoText.ToLower`: maps only ASCII letters. Go's `strings.ToLower` also lowers non-ASCII letters.
- Invalid UTF-8 in a tag: strings are sequences of code points, so invalid byte sequences cannot be expressed.
- The flag engine's argument grammar (`flag.FlagSet.Parse`): its outcome is the `EngineRun` parameter, a list of typed assignments and an optional error. Positional arguments (`Args`, `Arg`, `NArg`) are therefore not modelled.
- The proxies `PrintDefaults`, `Arg`, `Args`, `Lookup`, `NArg`, `NFlag`, `Visit`, `VisitAll` (flagstruct.go:100-146): they forward to `flag.FlagSet` and add no behaviour of their own. `Parsed` is modelled (`Parser.Parsed`).
- Panics of `flag` on a flag name defined twice: `Extend` and `Register` require distinct names not yet on the flag set. The code leaves this to the caller (flagstruct.go:30).
- `FlagStruct.FlagSet.Define`: Go's `flag.Var` also panics on a name that begins with `-` or contains `=`, such as the tag `flag:"-v"` or `flag:"a=b"`. The model does not check names, so it registers such a flag.
- `FlagStruct.Extend`: a nil `v` (`Extend(fs, nil)`) panics at flagstruct.go:35, where `Type()` is called on the zero `reflect.Value`. A typed nil pointer panics at flagstruct.go:40, after `reflect.Indirect` gives the zero `Value`. Neither panic is modelled. `Extend` and `New` require a root of a valid kind, and a `Root` pointer always has a target, so a typed nil pointer cannot be expressed.
- `StrConv.NumErrorText`: its `Quote` escapes only the quote, the backslash and ASCII control characters. Go's `strconv.Quote` also escapes non-printable non-ASCII runes, such as U+00A0, U+0085, U+200B and U+FEFF, as `\u` sequences. A default literal holding one gets a different error text in the model.
- `Extend`'s table `tbl`: it holds pointers into the flag set's storage. The model keeps each slot's type there and reads the values from the flag set's `values` map.
- `FlagStruct.ExampleParse`: takes the two descriptors' paths as preconditions, as `Decode.ExampleExtract` yields them, rather than calling `Extract` itself. It keeps their names generic (only distinct), so it does not repeat that they are `name` and `on`, which `Decode.ExampleExtract` states.
