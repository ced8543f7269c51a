# Chef::JSON — decoding tagged objects and library options

`Chef::JSON` (chef/lib/chef/json.rb) is Chef's wrapper around a JSON library.
It uses Yajl when that library loads and falls back to the json gem otherwise.
This project models the logic the wrapper adds on top of the library:

- **`rework_object`** walks a decoded tree bottom-up.
  - It rebuilds every Array and every Hash.
  - It turns every rebuilt Hash that includes the key `"json_class"` into a
    domain object. The tag is read as a `::`-separated type path.
    - `constantize` resolves that path left to right, starting from `Object`.
    - The whole rebuilt Hash, tag included, then goes to the type's
      `json_create` when it has one, and to `new` otherwise.
- **`opts_add_max_nesting`** is used by the json-gem backend. It returns the
  caller's options with `:max_nesting` set to 1000, unless the caller already
  chose a value. When `:max_nesting` is present it returns the caller's Hash
  itself; otherwise it stores the default into a fresh Hash (a clone of the
  caller's), so the caller's Hash is never changed. The clone of a frozen Hash
  is frozen too, and the store into it raises.
- **`to_json_pretty`** on Yajl merges the caller's options over
  `{ :pretty => true }`.
- **`from_json`, `to_json` and `to_json_pretty`** are modelled only as far as
  the wrapper's own work goes: which options reach the library, and whether
  the parsed tree is reworked.

Modules:

- `TypePaths` holds `constantize`:
  - Ruby's `String#split('::')`;
  - constant lookup, against a finite registry of constants;
  - the resolving loop, as a method proved against a fold.
- `JsonValues` holds the decoded values and Ruby's Hash operations: `include?`, `[]`, `[]=`.
- `Reconstruction` holds `rework_object`:
  - a recursive function;
  - the `each_pair` rebuild loop, as a method;
  - lemmas about the walk.
- `Options` holds the option Hashes: a map model and an `OptionHash` class updated in place.
- `Facade` holds the two backends' `from_json` and the option Hash each library call receives.
- `Scenarios` holds worked decodes against a three-constant registry.

## Model

| member | source | states |
|---|---|---|
| TypePaths.Fields | chef/lib/chef/json.rb:28 | The fields of a string between leftmost `::` occurrences: at least one, the first a prefix of the string, and a string with no `::` is its own single field. `JoinFields`, `FieldsHaveNoSeparator` and `FieldsLeftmost` complete its contract. |
| TypePaths.Split | chef/lib/chef/json.rb:28 | `s.split('::')` is the fields with only empty fields dropped, and only at the end: a prefix of the fields whose every dropped field is empty. It never ends with an empty field, and no piece holds `::`; `SplitJoin` gives it back the segments it was joined from. |
| TypePaths.JoinFields | chef/lib/chef/json.rb:28 | Splitting at every `::` loses nothing: joining the fields back with `::` gives the original string. |
| TypePaths.FieldsLeftmost | chef/lib/chef/json.rb:28 | Separators are matched leftmost first: no field but the last ends with `:`, so "a:::b" splits into "a" and ":b". |
| TypePaths.FieldsHaveNoSeparator | chef/lib/chef/json.rb:28 | No field produced by the split contains `::`. |
| TypePaths.FieldsColonFree | chef/lib/chef/json.rb:28 | A string without `:` is a single field. |
| TypePaths.FieldsOfSegment | chef/lib/chef/json.rb:28 | A colon-free segment followed by `::` splits off as the first field. |
| TypePaths.FieldsJoin | chef/lib/chef/json.rb:28 | Joining colon-free segments with `::` and splitting again gives the segments back, trailing empty fields included. |
| TypePaths.SplitJoin | chef/lib/chef/json.rb:28 | Ruby's `split('::')` inverts the join for colon-free segments whose last segment is not empty. |
| TypePaths.Resolve | chef/lib/chef/json.rb:27-28 | The fold `r = r.const_get(p)` over the segments: when it fails, the error names a segment of the path and a scope that really lacks that name. `ResolveOne` and `ResolveAppend` fix the constant any path reaches; `ResolveFailure` and `ResolvePrefixes` complete its contract. |
| TypePaths.ResolveOne | chef/lib/chef/json.rb:27-28 | The empty path stays at the scope; a one-segment path reaches the constant registered under that name in the scope, or fails with "`name` is not defined in `scope`" when there is none. |
| TypePaths.Constantize | chef/lib/chef/json.rb:26-30 | The loop that starts from `Object` and replaces `r` with `r.const_get(p)` for each segment returns the left-to-right resolution of the split path, or the first lookup that fails. |
| TypePaths.ResolveAppend | chef/lib/chef/json.rb:27-28 | Resolving a concatenated path resolves the first part, then continues from the scope that part reached. |
| TypePaths.ResolveFailure | chef/lib/chef/json.rb:27-29 | Resolution fails with "`name` is not defined in `at`" exactly when some prefix resolves to `at`, the next segment is `name`, and `at` defines no `name`. |
| TypePaths.ResolvePrefixes | chef/lib/chef/json.rb:27-29 | If a path resolves, every prefix of it resolves too. |
| TypePaths.EmptySegmentFails | chef/lib/chef/json.rb:28 | Against a registry of valid constant names, a path with an empty segment, such as "::Node", never resolves. |
| JsonValues.IndexOf | chef/lib/chef/json.rb:41 | For an included key, the position of its first entry: that entry has the key and no earlier entry does. |
| JsonValues.Store | chef/lib/chef/json.rb:38 | `h[k] = v` leaves a present key at its position, keeping all keys, and appends an absent key at the end. Either way the Hash then maps `k` to `v`. |
| JsonValues.StoreOnlyAddsEntry | chef/lib/chef/json.rb:38 | `h[k] = v` adds no entry except `k => v`. |
| JsonValues.StoreKeepsKeysDistinct | chef/lib/chef/json.rb:38 | `h[k] = v` keeps the Hash free of duplicate keys. |
| Reconstruction.Instantiate | chef/lib/chef/json.rb:40-46 | The tagged branch receives the whole rebuilt Hash as its payload. The payload goes through `json_create` exactly when the type has it, and through `new` otherwise. The branch succeeds exactly when the tag is a String whose path resolves, and then it builds the resolved type. An unresolved path fails with that lookup's NameError. A tag that is not a String fails. |
| Reconstruction.Rework | chef/lib/chef/json.rb:32-52 | `rework_object` itself. Its contract is stated by `ReworkScalar`, `ReworkArray`, `ReworkUntaggedObject`, `ReworkNestedFailureFirst`, `ReworkTaggedObject`, `ReworkPlainIdentity`, `ReworkResultPlain`, `ReworkFixedPoint` and `ReworkIdempotent`. |
| Reconstruction.Collect | chef/lib/chef/json.rb:34 | `map` over the element outcomes: a success has one value per element; `CollectElementwise` gives the values in order and the first failure. |
| Reconstruction.StoreAll | chef/lib/chef/json.rb:36-39 | The in-order fold of `new_obj[k] = v` that `RebuildHash` computes. Its contract is stated by the `StoreAll` lemmas below. |
| Reconstruction.RebuildHash | chef/lib/chef/json.rb:36-39 | The `each_pair` loop that fills `new_obj` gives the in-order fold of `h[k] = rework(v)` over the entries, stopping at the first value whose rework fails. |
| Reconstruction.CollectElementwise | chef/lib/chef/json.rb:34 | `map` succeeds exactly when every element succeeds. It then keeps the length and puts element i's value at position i. Otherwise it reports the first failure. |
| Reconstruction.StoreAllFailurePersists | chef/lib/chef/json.rb:37-39 | Once a store in the rebuild loop has failed, the whole loop has failed with that error. |
| Reconstruction.StoreAllSucceeds | chef/lib/chef/json.rb:37-39 | A rebuild loop that finishes has seen no failing value. |
| Reconstruction.StoreAllKeepsKeys | chef/lib/chef/json.rb:36-39 | If the keys are distinct and every value succeeds, the rebuilt Hash has exactly the input's keys in the same order, each with its reworked value. |
| Reconstruction.StoreAllFailsFirst | chef/lib/chef/json.rb:37-39 | A failing rebuild reports the first failing value in insertion order. |
| Reconstruction.StoreAllDistinct | chef/lib/chef/json.rb:36-39 | A successful rebuild never holds a key twice. |
| Reconstruction.StoreAllValuesFromOutcomes | chef/lib/chef/json.rb:36-39 | Every value of a successful rebuild is the reworked value of some input entry. |
| Reconstruction.ReworkScalar | chef/lib/chef/json.rb:50 | Anything that is neither an Array nor a Hash is returned unchanged. |
| Reconstruction.ReworkArray | chef/lib/chef/json.rb:34 | An Array succeeds exactly when each element's rework does. It then stays an Array of the same length, with element i reworked. Otherwise it fails with the first failing element's error. |
| Reconstruction.ReworkUntaggedObject | chef/lib/chef/json.rb:36-48 | A Hash without `"json_class"` comes back as a Hash with exactly the same keys in the same order, each value reworked. Otherwise it fails with the first failing value's error. |
| Reconstruction.RebuiltHash | chef/lib/chef/json.rb:36-39 | When every value of a Hash with distinct keys reworks, the rebuilt Hash has the same keys in the same order, each with its reworked value. |
| Reconstruction.ReworkNestedFailureFirst | chef/lib/chef/json.rb:36-41 | Values are reworked before the tag is looked at: if any value's rework fails, the whole rework fails with the first such error in insertion order, whatever the tag says. |
| Reconstruction.ReworkTaggedValuesSucceed | chef/lib/chef/json.rb:36-46 | For a tagged Hash whose values all rework, the object built keeps every key, the tag included, with the reworked values, and goes through `json_create` exactly when the type has it. If the reworked tag is a String, success means its path resolved, and the built object has the resolved type; a lookup failure becomes a NameError. A tag that is not a String fails. |
| Reconstruction.ReworkTaggedObject | chef/lib/chef/json.rb:36-46 | A tagged Hash in full: a failing value decides the outcome with the first failure before the tag is examined; otherwise the tag is resolved and the whole rebuilt Hash, tag included, is instantiated as `ReworkTaggedValuesSucceed` states. |
| Reconstruction.ReworkPlainIdentity | chef/lib/chef/json.rb:32-52 | A tree with no `"json_class"` key at any depth (with Ruby's distinct Hash keys) is returned structurally equal. |
| Reconstruction.ReworkResultPlain | chef/lib/chef/json.rb:32-52 | A successful rework leaves no `"json_class"` key outside the objects it built. |
| Reconstruction.ReworkFixedPoint | chef/lib/chef/json.rb:32-52 | The walk returns a tree unchanged exactly when the tree has no `"json_class"` key outside built objects. |
| Reconstruction.ReworkIdempotent | chef/lib/chef/json.rb:32-52 | Reworking an already reworked tree changes nothing. |
| Options.Merge | chef/lib/chef/json.rb:64 | `base.merge(other)` has the keys of both. The value from `other` wins, and base values survive for every other key. |
| Options.WithMaxNesting | chef/lib/chef/json.rb:76-88 | The result always has `:max_nesting`. Its keys are the caller's keys plus `:max_nesting`, and every caller value is kept. The default 1000 is used only when the caller had no `:max_nesting`. A nil argument gives exactly `{ :max_nesting => 1000 }`. |
| Options.WithMaxNestingIdempotent | chef/lib/chef/json.rb:82-88 | Adding the default to an already defaulted Hash changes nothing. |
| Options.PrettyMerge | chef/lib/chef/json.rb:64 | The Yajl pretty options always have `:pretty`. They have the caller's keys plus `:pretty`, and every caller value wins, a caller's `:pretty` included. `:pretty` is true whenever the caller did not set it. |
| Options.OptionHash.constructor | chef/lib/chef/json.rb:84 | A newly allocated, unfrozen Hash holding the given entries. `Hash.new` is this with no entries, and `clone` allocates its copy with it. |
| Options.OptionHash.Clone | chef/lib/chef/json.rb:84 | `clone` returns a new Hash with the same entries, frozen exactly when the original is. |
| Options.OptionHash.Store | chef/lib/chef/json.rb:85 | `opts[k] = v` sets `k` to `v` in place and changes nothing else. On a frozen Hash it raises and leaves the Hash as it was. |
| Options.AddMaxNesting | chef/lib/chef/json.rb:82-88 | The caller's Hash is never modified. If it already has `:max_nesting`, that very Hash is returned. Otherwise the default is stored into a fresh Hash, an empty one for nil and a clone for a Hash, and that Hash is returned with the entries `WithMaxNesting` describes. It raises exactly when the caller's Hash lacks `:max_nesting` and is frozen, because the clone is frozen too. |
| Facade.LibraryOptions | chef/lib/chef/json.rb:56-100 | Each library call receives every caller option unchanged. Yajl adds only `:pretty` (true by default) for pretty output. The json gem adds only `:max_nesting` (1000 by default), on every call. |
| Facade.FromJson | chef/lib/chef/json.rb:55-93 | `from_json` on either backend: a parser error reaches the caller unchanged, and a result is returned only when the parse succeeded. On Yajl a parsed tree is handed to `rework_object` (whose meaning the `Rework*` lemmas state); on the json gem the parsed tree itself is the result. `FromJsonTagged`, `FromJsonPlain` and `FromJsonYajlSettled` complete its contract. |
| Facade.FromJsonTagged | chef/lib/chef/json.rb:55-93 | For a parsed Hash with a `"json_class"` key, the json gem returns that Hash, tag included, while Yajl never does: it fails with the first failing value when a nested value fails, and otherwise succeeds only with an object of the class the tag names, whose Hash has the same keys and the reworked values. |
| Facade.FromJsonPlain | chef/lib/chef/json.rb:55-93 | A parsed tree with no `"json_class"` key is returned as it is by both backends. |
| Facade.FromJsonYajlSettled | chef/lib/chef/json.rb:55-57 | What the Yajl `from_json` returns holds no `"json_class"` key outside the objects it built. |
| Scenarios.ResolveChefPath | chef/lib/chef/json.rb:26-30 | `constantize("Chef::Node")` and `constantize("Chef::Role")` resolve through `Chef` to the nested types. |
| Scenarios.DecodeWithFactory | chef/lib/chef/json.rb:40-45 | A Hash tagged `Chef::Node` (a type with `json_create`) becomes a Node built by its factory. The factory receives the whole Hash, tag included. |
| Scenarios.DecodeWithConstructor | chef/lib/chef/json.rb:40-43 | A Hash tagged `Chef::Role` (a type without `json_create`) becomes a Role built by `new` from the same Hash. |
| Scenarios.ResolveMissingPath | chef/lib/chef/json.rb:26-29 | A path whose first segment is undefined fails at `Object`, naming that segment. |
| Scenarios.DecodeUnknownType | chef/lib/chef/json.rb:40-41 | A Hash tagged with an unknown type makes the whole decode fail with that NameError. |
| Scenarios.LeadingSeparatorFails | chef/lib/chef/json.rb:26-29 | Against the example registry, whose names are all valid, `constantize("::Chef")` fails on its empty first segment. |
| Scenarios.FrozenOptionsRaise | chef/lib/chef/json.rb:82-88 | A frozen option Hash without `:max_nesting` makes `opts_add_max_nesting` raise a FrozenError. |

## Left out

- Parsing and encoding are left out: `Yajl::Parser.parse`, `Yajl::Encoder.encode`, `::JSON.parse`, `obj.to_json` and `::JSON.pretty_generate` (json.rb:56, 60, 64, 92, 96, 100).
  - These are library calls.
  - The parser is a parameter of `Facade.FromJson`. The model does not restrict which `Error` it returns; `ParserError` is the value meant for the library's own errors.
  - For encoding, the model covers only the option Hash passed to the library.
- Choosing the backend at load time (`require 'yajl'` rescued by `LoadError`, json.rb:20-21, 70-72) is a `Backend` parameter.
- Ruby reflection is a finite registry, `TypePaths.Namespace`. This covers `Object.const_get`, `respond_to?(:json_create)`, `klass.new` and `klass.json_create`.
  - Autoloading is not modelled.
  - Ruby's rules for valid constant names are not modelled. The registry is assumed to hold only valid names (`TypePaths.WellFormed`: none empty, none holding `:`). Under that assumption, a path with an empty segment such as "::Node" fails (`TypePaths.EmptySegmentFails`). The error is an uninitialized-constant NameError, where Ruby raises a "wrong constant name" NameError.
  - A built object is the opaque `Constructed(type, viaFactory, payload)`, so constructor and factory side effects and errors are not modelled.
- Numbers are integers. Float parsing and representation belong to the libraries.
- The nesting-depth check inside the libraries is left out. Only the option value 1000 that the wrapper passes is modelled.
- The insertion order of option Hashes is left out: options are a map. Decoded Hashes do keep their insertion order.
- A `"json_class"` value that is not a String is not modelled as an object that might respond to `split`. It fails with `TagNotAString`, the Ruby NoMethodError.
- `private :opts_add_max_nesting` (json.rb:103) is a visibility declaration with no behaviour to model.
- The json-gem `from_json` (json.rb:91-93) returns the gem's parse result without calling `rework_object`; the model follows that code. Any reconstruction of tagged objects the gem itself performs (`JSON.parse` with `create_additions`) belongs to the library and is not part of this model.
- Facade.LibraryOptions: the option Hash is a value here. The raise that `Options.AddMaxNesting` models for a frozen caller Hash is not carried into the json-gem calls of `Facade`.
- Reconstruction.ReworkIdempotent, Reconstruction.ReworkFixedPoint: a built object is the opaque `Constructed` value, never an Array or a Hash, so the walk never enters it. Ruby's `case obj when Array ... when Hash` (json.rb:33-35) does enter a `json_create` or `new` result that is a Hash or Array subclass, and a second `rework_object` would rebuild and instantiate it again. These two lemmas hold only for built objects that are neither.
- Option keys are Symbols only (`Options.Symbol`). A String key such as `"max_nesting"` cannot be expressed, although Ruby's `has_key?(:max_nesting)` (json.rb:83) ignores it and adds `:max_nesting => 1000` beside it.
