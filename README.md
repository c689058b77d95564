# Natalie runtime core in Dafny

This project models the sequential core of the Natalie runtime, a Ruby-like language runtime written in C++ and C:

- **Ordered hash table** (`HashValue`, module `Objects`). It holds an index keyed by the cached integer hash code of each key, plus a circular doubly linked ring of key nodes that records insertion order. Key nodes live in an arena (`nodes`) and are named by position. A removed node is marked `removed` and is never freed. A ghost sequence `ring` lists the ring's nodes from the head. `Valid()` states three facts:
  - the links realise that ring;
  - every live node is indexed exactly once under its cached hash;
  - the index holds nothing else.

  `Entries()` is the abstract content, and every operation is specified against pure functions on it (`Position`, `Lookup`, `PutEntry`, `RemoveEntry`, `HashEqual`, `FirstBreak`, `SquareNewSpec`).
- **Parameter binder** (module `Binder`). This covers name classification, `splat_value`, `array_value_by_path`, `arg_value_by_path`, `kwarg_value_by_name`, `to_ary`, `args_to_array`, `block_args_to_array` and the format-driven `arg_spread`. Each loop of the source is a method proved equal to a recursive specification function. Lemmas then state the branch rules of those functions.
- **Early C runtime** (module `EarlyRuntime`). This covers the lexical environment chain, heap objects with a growable NUL-terminated string buffer (`array<char>` of `strCap + 1` chars), `num_char_len`, `String_inspect`, the bootstrap class graph of `build_top_env` and the receiver-class-only lookup of `nat_send`. Environment frames are an arena (`Envs.frames`) addressed by index, and an outer frame always has a smaller index than the frames nested in it. Objects are a `class` whose `superclass` field can point at the object itself, which is how `Class` is its own superclass.
- **Process-wide registry** (`GlobalEnv`, module `GlobalEnvironment`). It holds two `map<string, Value>` fields, for globals and for interned symbols, and four singleton slots. A null pointer is `None`.

The runtime's dispatched calls are fields of the datatype `Objects.Dispatch`, given to every operation that needs them:
- `hash`, `inspect` and `==` on a value;
- running a block;
- `respond_to`, and `send` of `to_ary`;
- the class name of a value;
- the `@_ptr` instance variable.

The core does not determine their results, so the model takes them as parameters. A raised exception is an `Err` of `Wrappers.Result` (or `Fail` of `Status`) carrying its class and message. A C `abort()`, and the failed type `assert` of `String_inspect`, is the error kind `Abort`. `nat_grow_string`'s capacity `assert` is a precondition (see "## Left out"), and the `NAT_MAX_INT` size `assert`s are not modelled, because sizes are unbounded integers.

## Model

| member | source | states |
|---|---|---|
| Objects.CollidingKeysShareEntry | src/hash_value.cpp:8-14 | Slots compare cached hash codes only. A put of a second, different key with the same `hash` overwrites the value under the first key, keeps the first key, and does not grow the table. |
| Objects.Position | src/hash_value.cpp:17-23 | The index probe finds the unique entry whose cached hash equals the probe's, or reports that no entry has it. |
| Objects.LookupAfterPut | src/hash_value.cpp:60-78 | After put, the written hash finds the new value, and every other hash finds what it found before. |
| Objects.LookupAfterRemove | src/hash_value.cpp:80-94 | After remove, the removed hash finds nothing, and every other hash finds what it found before. |
| Objects.PutKeepsDistinct | src/hash_value.cpp:60-78 | Put keeps the cached hash codes of live entries pairwise distinct, so each live entry is indexed once. |
| Objects.RemoveKeepsDistinct | src/hash_value.cpp:80-94 | Remove keeps the cached hash codes of live entries pairwise distinct. |
| Objects.PutPresentKeepsOrder | src/hash_value.cpp:65-68 | Put on a present key changes neither the size nor the order of the keys. |
| Objects.PutAbsentAppends | src/hash_value.cpp:69-77 | Put on an absent key grows the table by one, and the new key is last in iteration order. |
| Objects.RemoveSize | src/hash_value.cpp:80-94 | Remove of a present key shrinks the table by one. Remove of an absent key changes nothing. |
| Objects.HashEqualReflexive | src/hash_value.cpp:248-267 | When `==` on values is reflexive, a table is `==` to itself. |
| Objects.HashEqualNeedsSameSize | src/hash_value.cpp:253-255 | Tables of different sizes are never `==`. |
| Objects.HashEqualNeedsEveryKey | src/hash_value.cpp:257-261 | A key of the receiver whose hash is missing from the other table makes the two tables unequal. |
| Objects.FirstBreakFound | src/hash_value.cpp:269-288 | When the first block run that breaks is at entry i, `each` answers that run's value. |
| Objects.FirstBreakHasWitness | src/hash_value.cpp:269-288 | An early end of `each` always comes from a first breaking run at some entry. |
| Objects.FirstBreakNone | src/hash_value.cpp:269-288 | `each` runs to completion exactly when no run of the block breaks. |
| Objects.InspectSmall | src/hash_value.cpp:196-213 | `inspect` of an empty table is `{}`. For one entry it is `{` + key inspect + `=>` + value inspect + `}`. |
| Objects.ArrayPairsErrorSticks | src/hash_value.cpp:169-176 | In `Hash[]` with one array argument, the first malformed element decides the error for the whole array. |
| Objects.PutAllOfDistinctKeys | src/hash_value.cpp:184-193 | When the keys' hash codes are pairwise distinct, `Hash[]` keeps every pair, in argument order. |
| Objects.RepeatedKeyKeepsLastValue | src/hash_value.cpp:184-193 | A key given twice to `Hash[]` keeps its first position and its last value. |
| Objects.HashValue.constructor | src/hash_value.cpp:36-40 | A new hash is valid and empty, is not iterating, has default value nil and has no default block. |
| Objects.HashValue.Get | src/hash_value.cpp:42-49 | Probing the index gives the stored value of the entry whose cached hash equals the key's hash, or nothing. |
| Objects.HashValue.KeyListAppend | src/hash_value.cpp:96-123 | On an empty ring, the new node is a one-node self-loop that becomes the head. Otherwise the new node goes after the old last node, with `next` equal to the head, so it is visited last. The ring stays linked, and older nodes keep their data. |
| Objects.HashValue.KeyListRemoveNode | src/hash_value.cpp:125-145 | Unlinking a node drops it from the ring and marks it removed. Removing the sole node empties the ring (head null, node links null). Removing the head moves the head to its `next`. In every case the neighbours are linked to each other. |
| Objects.HashValue.Put | src/hash_value.cpp:60-78 | Put overwrites a present entry in place (in the node and in the index slot). An absent key while iterating fails with RuntimeError "can't add a new key into hash during iteration" and leaves the table untouched. Otherwise the entry is appended. The table stays valid. |
| Objects.HashValue.Remove | src/hash_value.cpp:80-94 | Remove returns the stored value and the entries lose exactly that entry. An absent key returns nothing and changes nothing. Removal is allowed while iterating. |
| Objects.HashValue.Size | src/hash_value.cpp:239-241 | The number of index slots equals the number of live entries. |
| Objects.HashValue.HasKey | src/hash_value.cpp:317-324 | True exactly when some live entry has the key's hash. |
| Objects.HashValue.GetDefault | src/hash_value.cpp:51-58 | The default block run on (hash, key) when there is one, else the default value, which is then the same for every key. |
| Objects.HashValue.Ref | src/hash_value.cpp:215-222 | Returns the stored value for a present key. For an absent key it returns the default, from `get_default`: the default block run on (hash, key) when there is one, else the default value. |
| Objects.HashValue.DeleteKey | src/hash_value.cpp:229-237 | Removes the entry and returns its value. An absent key returns nil. |
| Objects.HashValue.RefEq | src/hash_value.cpp:224-227 | `[]=` is put, returning the value, with the same iteration guard. |
| Objects.HashValue.Initialize | src/hash_value.cpp:147-157 | A block together with a default value is an ArgumentError. Otherwise a block becomes the default block and a value becomes the default value. |
| Objects.HashValue.Keys | src/hash_value.cpp:290-296 | The keys, walked from the head along `next`, in insertion order. |
| Objects.HashValue.Values | src/hash_value.cpp:298-304 | The values, in insertion order. |
| Objects.HashValue.Inspect | src/hash_value.cpp:196-213 | Returns `{` + the `k.inspect=>v.inspect` parts joined by `", "` in ring order + `}`. |
| Objects.HashValue.Eq | src/hash_value.cpp:248-267 | True exactly when the other value is a hash of the same size and every key of the receiver is found there with an `==`-truthy value. |
| Objects.HashValue.Each | src/hash_value.cpp:269-288 | No block gives LocalJumpError. Otherwise the block runs over the entries in order. It returns the value of the first run that breaks, or the hash itself. Either way iteration ends cleared. |
| Objects.HashValue.FromArray | src/hash_value.cpp:167-182 | With one array argument, each element must be an array of size 1 or 2, else ArgumentError. A size-1 element gets a nil value. |
| Objects.HashValue.FromPairs | src/hash_value.cpp:184-193 | Consecutive arguments are put as key/value pairs into a fresh table. |
| Objects.HashValue.SquareNew | src/hash_value.cpp:160-194 | `Hash[]` gives the result of SquareNewSpec: 0 args give an empty hash, one Hash is returned as-is, one Array is read as pairs, an odd count is "odd number of arguments for Hash", and otherwise the arguments are read as pairs. |
| Binder.IsConstantName | src/natalie.cpp:8-10 | A constant name is non-empty and starts with an upper-case letter `A`..`Z`, so it never starts with `$`. |
| Binder.IsGlobalName | src/natalie.cpp:12-14 | A global name is non-empty and starts with `$`, so it never starts with an upper-case letter. |
| Binder.NameKindsExclusive | src/natalie.cpp:8-14 | The empty name is neither a constant name nor a global name, and no name is both. |
| Binder.Splat | src/natalie.cpp:172-180 | Returns exactly the elements at indices [index, size - offset_from_end), in order. A non-array or an empty range gives an empty array. |
| Binder.SplatValue | src/natalie.cpp:172-180 | The push loop builds Splat's array. |
| Binder.ArrayValueByPath | src/natalie.cpp:257-301 | The loop returns ArrayPath: a splat on the last step, and otherwise step-by-step indexing. It requires splat safety only on the value the last step actually reaches. |
| Binder.ArrayStepOnArray | src/natalie.cpp:271-287 | A negative index counts from the end, and an index outside the array gives the default. |
| Binder.ArrayStepOnScalar | src/natalie.cpp:289-296 | A non-array passes through index 0 unchanged, and any other index gives the default. |
| Binder.ArrayPathCompose | src/natalie.cpp:261-298 | Without a splat, following p then q is following p + q. |
| Binder.ArgValueByPath | src/natalie.cpp:182-255 | The loop returns ArgPath: default window, left shift on one-step paths, negative-index normalisation and bounds. It requires splat safety only on the value the walk actually reaches. |
| Binder.ArgStepWithoutDefaults | src/natalie.cpp:195-241 | With no optional parameters and a full array, a step of arg_value_by_path is a step of array_value_by_path. |
| Binder.ArgPathDefaultWindow | src/natalie.cpp:203-207 | With a non-nil default and left-aligned defaults, an index with len - required <= index < default_count returns the default at once. |
| Binder.ArgNegativeIndex | src/natalie.cpp:219-228 | With 3 parameters and 5 values, index -1 is element 4. With 2 values it is element 1 (total_count - 1 + index). |
| Binder.LeftDefaultsExample | src/natalie.cpp:203-217 | For `def m(a = 1, b = 2, c)` called with two values: a gets the first value, b gets its default, and c is shifted onto the second value. |
| Binder.ShiftOnlyForOneStepPath | src/natalie.cpp:209-217 | The left shift applies only when the path has one step. |
| Binder.ArgShiftNoDefaultsGiven | src/natalie.cpp:209-217 | Defaults on the left and at most the required count of values: a one-step index is moved left by default_count onto the array. |
| Binder.ArgShiftSomeDefaultsGiven | src/natalie.cpp:209-217 | Defaults on the left and 0 < extra_count <= default_count values beyond the required ones: an index from extra_count on, outside the default window, is moved left by default_count - extra_count. |
| Binder.ArgNegativeIndexRule | src/natalie.cpp:203-241 | Without optional parameters, a negative index counts from the array's end when the array fills the parameter list, and from position total_count - 1 otherwise. In the second case a non-nil left default covers the indices in the default window. |
| Binder.KwargValueByName | src/natalie.cpp:307-326 | The last argument is the keyword carrier only if it is a Hash. A missing key returns the default, or raises ArgumentError "missing keyword: :name" when there is none. |
| Binder.ToAry | src/natalie.cpp:150-170 | An array converts as itself. An object without `to_ary` is wrapped alone. Only a demanded conversion can fail, with TypeError. |
| Binder.ArgsToArray | src/natalie.cpp:328-334 | The arguments, in order, in a new array. |
| Binder.BlockArgsToArray | src/natalie.cpp:338-343 | A single argument given to a block taking several parameters is spread with to_ary, so a single array is passed on as itself. Otherwise the arguments are taken as they are. Only the spread of a single non-array can fail, with TypeError. |
| Binder.Int32 | src/natalie.cpp:370 | Storing into a C `int` keeps the value modulo 2^32, in [-2^31, 2^31), and leaves in-range values unchanged. |
| Binder.SpreadArgsOk | src/natalie.cpp:345-403 | On success there were at least as many arguments as specifiers, and the i-th store is the i-th specifier applied to the i-th argument. |
| Binder.SpreadTooFewArgs | src/natalie.cpp:359-364 | A format with more `o`/`b` specifiers than arguments fails with "wrong number of arguments (given argc, expected argc + 1)". |
| Binder.SpreadAllPresent | src/natalie.cpp:359-388 | A format of `o`/`b` specifiers succeeds whenever the arguments last. |
| Binder.ArgSpread | src/natalie.cpp:345-403 | The loop returns SpreadArgs: one argument per specifier in order. `i` requires an Integer, `s` a String or nil, `b` stores truthiness and `o` stores the object unchanged. An unknown specifier aborts. |
| Binder.NilStringFinding | src/natalie.cpp:372-382 | As written, `s` on nil fails. The corrected SpreadOne stores a null string. |
| EarlyRuntime.NumCharLen | lib/natalie/main.c:158-184 | The digit-count table (1 to 6 exactly, then 9, 12, 15, 18, and 40 for larger values), plus one char for the sign. So the result is between 1 and 40 for a non-negative value, and between 2 and 41 for a negative one. |
| EarlyRuntime.NumCharLenCoversDecimal | lib/natalie/main.c:158-184 | Below 10^6 the length is the decimal digit count. For larger values it is at least the digit count. A negative value takes one more, for the sign. |
| EarlyRuntime.GrownCapacity | lib/natalie/main.c:251-260 | The new capacity is at least the minimum and at least the old capacity. It is unchanged if already enough. Otherwise it is double the old capacity when that is non-zero and enough, and exactly the minimum when it is not. |
| EarlyRuntime.NatObject.Alloc | lib/natalie/main.c:118-122 | A fresh object of type OTHER with an empty string buffer. |
| EarlyRuntime.NatObject.GrowString | lib/natalie/main.c:244-249 | The buffer is reallocated to hold `capacity` chars, and the contents are unchanged. |
| EarlyRuntime.NatObject.GrowStringAtLeast | lib/natalie/main.c:251-260 | The capacity becomes GrownCapacity of the old one, and the contents and the other fields are unchanged. |
| EarlyRuntime.NatObject.StringAppend | lib/natalie/main.c:262-269 | The contents become old ++ s and the length old + \|s\|. Appending the empty string changes nothing. |
| EarlyRuntime.NatObject.StringAppendChar | lib/natalie/main.c:271-277 | The contents gain `c` at the end, the length grows by one, and a terminator follows. |
| EarlyRuntime.NatSubclass | lib/natalie/main.c:124-132 | A fresh class object with the given name and superclass and an empty method table. |
| EarlyRuntime.NatNew | lib/natalie/main.c:134-138 | A fresh object of the given class. |
| EarlyRuntime.NatString | lib/natalie/main.c:147-155 | A fresh String object holding `s` at capacity \|s\|. Its class is what `String` is bound to. |
| EarlyRuntime.Chain | lib/natalie/main.c:67-70 | The frames from `e` outwards start at `e` and only go to older frames, so the chain is finite. |
| EarlyRuntime.EnvFind | lib/natalie/main.c:72-80 | The frame found binds the key and is `e` or outside it. |
| EarlyRuntime.EnvFindNearest | lib/natalie/main.c:72-80 | env_find returns the first frame of the outer chain that binds the key. It returns nothing exactly when no frame of the chain binds it. |
| EarlyRuntime.EnvFindLooksOnlyOutward | lib/natalie/main.c:72-80 | A lookup from `e` depends only on `e` and older frames. |
| EarlyRuntime.EnvGet | lib/natalie/main.c:82-95 | Returns the value bound in the frame env_find picks. |
| EarlyRuntime.Envs.BuildEnv | lib/natalie/main.c:312-318 | Adds a new empty frame nested in `outer`. |
| EarlyRuntime.Envs.EnvSet | lib/natalie/main.c:97-102 | Binds the key in frame `e` itself. Every other frame and every other key of `e` is unchanged. |
| EarlyRuntime.Envs.EnvDelete | lib/natalie/main.c:104-106 | Unbinds the key in frame `e` only. |
| EarlyRuntime.EnvGetAfterSet | lib/natalie/main.c:97-102 | After env_set, a lookup from `e` answers the new value. Other names, and lookups from older frames, are unchanged. |
| EarlyRuntime.EnvFindAfterDelete | lib/natalie/main.c:104-106 | After env_delete, the lookup from `e` continues into the outer frames. |
| EarlyRuntime.InspectedLength | lib/natalie/main.c:295-310 | The inspected text has length \|s\| + 2 + the number of `"` and `\` chars. |
| EarlyRuntime.UnescapeEscaped | lib/natalie/main.c:301-306 | Escaping loses nothing: reading a backslash as "next char literally" recovers the input. |
| EarlyRuntime.EscapedHasNoBareQuote | lib/natalie/main.c:301-306 | Every `"` in the escaped text is preceded by a backslash. |
| EarlyRuntime.AppendEscaped | lib/natalie/main.c:301-306 | One loop step appends the char, with a backslash first when it is `"` or `\`. |
| EarlyRuntime.StringInspect | lib/natalie/main.c:295-310 | A receiver whose type is not STRING fails the type assertion and aborts. Otherwise it returns a fresh String holding `"` + the escaped receiver + `"`. |
| EarlyRuntime.NewClassClass | lib/natalie/main.c:323-328 | `Class` is its own superclass, with no methods. |
| EarlyRuntime.NatSubclassWith | lib/natalie/main.c:331-332 | A subclass whose method table is exactly the given definitions. |
| EarlyRuntime.BindObjectClasses | lib/natalie/main.c:329-336 | Binds `Class`, `Object` (superclass Class, method `puts`) and `self`, an Object. |
| EarlyRuntime.BindNil | lib/natalie/main.c:338-345 | Binds `NilClass`, a subclass of Object with `to_s` and `inspect`, and `nil`, of type NIL. |
| EarlyRuntime.BindNumericAndString | lib/natalie/main.c:347-356 | Binds `Numeric` and `String`, subclasses of Object, with their native methods. |
| EarlyRuntime.BuildTopEnv | lib/natalie/main.c:320-359 | Builds one root frame holding exactly the bootstrap bindings, in which Class is its own superclass. |
| EarlyRuntime.NatSend | lib/natalie/main.c:199-207 | Looks the selector up in the receiver's class table only. A miss aborts with "Error: object has no sym method, cannot call send.". |
| EarlyRuntime.SendIgnoresSuperclass | lib/natalie/main.c:199-207 | A selector that only the receiver's superclass defines is still reported missing, because send does not climb the class chain. |
| EarlyRuntime.SendFromTopString | lib/natalie/main.c:199-207 | A String finds `inspect`, but not `puts`, which only its superclass Object defines. |
| GlobalEnvironment.Find | src/global_env.cpp:20-26 | `find` gives the mapped value, or null when the name is absent. |
| GlobalEnvironment.FindAfterAssign | src/global_env.cpp:28-42 | After `m[name] = v`, the name reads v, and every other name reads as before. |
| GlobalEnvironment.AssignOverwrites | src/global_env.cpp:40-42 | A later set of the same name replaces the earlier one. |
| GlobalEnvironment.FindInEmpty | src/global_env.cpp:32-38 | A name never set reads null. |
| GlobalEnvironment.GlobalEnv.constructor | include/natalie/global_env.hpp:37-42 | Both maps start empty, and the four singleton slots are null. |
| GlobalEnvironment.GlobalEnv.GetSymbol | src/global_env.cpp:20-26 | The symbol stored under the name, or null. |
| GlobalEnvironment.GlobalEnv.AddSymbol | src/global_env.cpp:28-30 | get_symbol then reads the new value. Every other symbol, every global and every slot is unchanged. |
| GlobalEnvironment.GlobalEnv.GlobalGet | src/global_env.cpp:32-38 | The global stored under the name, or null. |
| GlobalEnvironment.GlobalEnv.GlobalSet | src/global_env.cpp:40-42 | global_get then reads the new value. Every other global, every symbol and every slot is unchanged. |
| GlobalEnvironment.GlobalEnv.SetObject | include/natalie/global_env.hpp:23-24 | `Object()` reads back the class, and no other field changes. |
| GlobalEnvironment.GlobalEnv.SetNilObj | include/natalie/global_env.hpp:26-27 | `nil_obj()` reads back the value, and no other field changes. |
| GlobalEnvironment.GlobalEnv.SetTrueObj | include/natalie/global_env.hpp:29-30 | `true_obj()` reads back the value, and no other field changes. |
| GlobalEnvironment.GlobalEnv.SetFalseObj | include/natalie/global_env.hpp:32-33 | `false_obj()` reads back the value, and no other field changes. |
| GlobalEnvironment.RegistryScenario | src/global_env.cpp:20-42 | Checks one concrete run of the registry: an unset name reads null, the latest set wins, symbols and globals do not mix, and a setter is read back. |

## Left out

- Freezing (`NAT_ASSERT_NOT_FROZEN` in `put` and `delete_key`) is not modelled, because the frozen flag lives in a header that is not part of this model.
- Memory management is not modelled: `malloc`/`free`/`realloc`, the garbage collector and the `volatile` tricks. Hash key nodes stay in the arena with their `removed` mark, and the `Val` records are not freed.
- The hash ring iterator (`begin`/`end`) is defined in a header that is not part of this model, and so is the code that sets `m_is_iterating`. Objects.HashValue.Each walks from the head along `next` back to the head, and sets and clears `isIterating` itself.
- Objects.HashValue.Each: when no block is given, the result is LocalJumpError "no block given". The message `NAT_ASSERT_BLOCK` really produces is not part of this model.
- The error messages of `NAT_ASSERT_TYPE` (in `arg_spread`) are modelled by the expected class name alone ("Integer", "String"), because the macro is not part of this model.
- `HashValue::sort` and `size(Env*)` (which wraps the size in an IntegerValue) are not modelled: `sort` depends on `ArrayValue::sort`, which is not part of this model.
- Objects.HashValue.Get and the other hash operations take key hashing (`hash`), `inspect`, `==` and running a block (`run`) as oracle functions in `Dispatch`, because they are dispatched method calls. Those calls' side effects (for example, a `hash` method that mutates the table) are not modelled.
- Objects.HashValue.Each: the block is the pure `run` oracle, so a block that puts into or removes from the receiver while it is iterated is not modelled. The model's Each cannot change the entries, and Put's "can't add a new key into hash during iteration" error needs a state with `isIterating` set, which no model operation leaves behind.
- Objects.HashValue.Ref: the default block is run through the same pure oracle, so a default block that stores into the receiver (`h[k] = ...`, the usual memoising idiom) does not change the table in the model.
- Objects.HashValue.GetDefault: as for Ref, the default block's side effects on the receiver are not modelled.
- The `'v'` specifier of `arg_spread` reads `@_ptr` through the `ptrIvar` oracle. `ivar_get` itself is not part of this model.
- `splat`, `to_proc`, `defined`, `defined_obj`, `block_new` and `_run_block_internal` depend on dispatch or on `Env::new_block_env`, which are not part of this model. `to_ary` is modelled over the `respondTo`/`send` oracles.
- I/O and process exit are left out: `Object_puts`, `print_exception_with_backtrace`, `handle_top_level_exception` and `run_at_exit_handlers`. `nat_send`'s `printf` + `abort` is an `Abort` error carrying the printed text.
- The libc formatting of `long_long_to_string`, `int_to_string` and `int_to_hex_string` is not modelled. Text.DecimalString stands in for `%d`/`%lli` in error messages and in the length proof of `num_char_len`.
- Calling the native methods found by `nat_send` is left out, because method bodies are native function pointers. NatSend returns which native method would run.
- The native methods `NilClass_to_s`, `NilClass_inspect`, `Numeric_to_s`, `String_to_s` and `String_ltlt` are named in method tables but not modelled as operations, apart from `String_inspect`.
- EarlyRuntime.NumCharLen: the most negative `long long` is excluded by its precondition, because `llabs` of it overflows in the source.
- EarlyRuntime.EnvGet: when no frame binds the key, the source dereferences a null frame. That is undefined behaviour, next to a commented-out "not found" error. The model returns None there.
- EarlyRuntime.NatObject.Alloc: C leaves every field except the type uninitialised. The model gives them empty values and a null class, so `Class`'s own class and the class of `nat_subclass` results are null.
- EarlyRuntime.NatObject.GrowString: the C `assert(capacity >= len)` is its precondition, not an `Abort` path. Its only caller, GrowStringAtLeast, always passes enough capacity.
- EarlyRuntime.StringInspect: the abort text is the asserted condition alone. The file, line and function name that the C library prints with it are not modelled.
- EarlyRuntime.NatObject.StringAppendChar: requires `c` to be non-NUL, because a NUL would end the C string early. No caller appends one.
- EarlyRuntime.NatObject.StringAppend: requires `s` to be a C string with no NUL inside, which `strlen` assumes.
- Integer widths: `size_t` capacities and `int` path indices are unbounded integers. Only the `int` store of the `'i'` specifier is truncated explicitly (Binder.Int32). Overflow of `capacity * 2` is not modelled.
- Binder.ArrayValueByPath and Binder.ArgValueByPath: the variadic index list is a `seq<int>`. A splat on the last step requires SplatSafe of the value the walk reaches there (ArraySplatSafe, ArgSplatSafe): when that value is an array and the copied range is non-empty, the index and `offset_from_end` must be non-negative, because the source would read outside the array otherwise. A walk that ends early, or reaches a non-array or an empty range, has no requirement.
- Hash arguments are not required to be valid by the source. The model's preconditions (`Valid()` on the receiver, and on the other table in `Eq` and in `KwargValueByName`'s keyword carrier) are the representation invariant every constructed table keeps.
- GlobalEnvironment.RegistryScenario and EarlyRuntime.SendFromTopString are single concrete runs. The general facts they illustrate are stated by GlobalEnvironment.FindAfterAssign, GlobalEnvironment.AssignOverwrites, the GlobalEnv method contracts, EarlyRuntime.NatSend and EarlyRuntime.SendIgnoresSuperclass.
- Binder.IsUpper: `isupper` is taken in the C locale (`A`..`Z`). Other locales are not modelled, and neither is the undefined behaviour of `isupper` on a negative `char`.
- Floats, the parser, the compiler passes and encoding metadata are not part of this model.

## Findings

| source | as written | input that shows it | evidently intended | confidence | as-written member | corrected member |
|---|---|---|---|---|---|---|
| src/natalie.cpp:376-381 | the `s` specifier stores nullptr for nil, then overwrites it with `obj->as_string()->c_str()` on nil | `arg_spread` with format `"s"` and the single argument nil | store nullptr for nil and convert only a String | medium (not executed; as_string on a non-String is taken to fail its type assertion) | Binder.SpreadOneAsWritten, Binder.NilStringFinding | Binder.SpreadOne |
