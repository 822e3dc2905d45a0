# datatable core: integer narrowing, call arguments, write buffers, options, frame keys

This project models five pieces of the `datatable` library in Dafny and proves properties of the model.

- **`Oint`** (`oint.dfy`) covers `py::oint`, the C++ wrapper around a Python `int`. A Python integer has unbounded size. The wrapper narrows it to `int8_t` .. `int64_t` in one of three ways:
  - strictly, raising an overflow exception;
  - with an overflow flag, saturating to ±MAX;
  - masked, keeping the low bits as `static_cast` does.
- **`PyArg`** (`arg.dfy`) covers `py::Arg`, one argument slot of a Python call handled in C++:
  - the slot is either undefined or bound to an object;
  - it answers shape queries;
  - it converts to bool / int32 / int64 / string / list of strings;
  - it memoises its display name.
- **`WriteBuf`** (`writebuf.dfy`) covers the output buffers of `c/writebuf.cc`:
  - `create_target` picks the buffer kind from the path and the strategy;
  - the in-memory buffer reserves positions with `prep_write`, grows by doubling, copies chunks with `write_at` and shrinks with `finalize`;
  - the file buffer writes as it reserves.
- **`DtOptions`** (`options.dfy`) covers the registry of `datatable.options`:
  - it is a tree of `DtConfig` groups whose leaves are `DtOption`s;
  - the tree is addressed by dotted names;
  - it has `register_option`, `get` / `__getattr__`, `set` / `__setattr__` and `reset` / `__delattr__`.
- **`FrameKey`** (`frame.dfy`) covers the column-name bookkeeping of `Frame`:
  - the `key` getter and setter;
  - `_delete_columns`.

`Results` (`results.dfy`) holds the shared `Option` and `Result` types.

The modelling choices:
- **Integers.** Integers are mathematical. The fixed widths appear explicitly, as `Width`, `Modulus`, `Max` and `Min`.
  - The library reserves MIN<T> as the NA marker of a column. The narrowing implementation (`int.cc`) is not part of this model, so whether the strict and flagged policies accept MIN<T> is not known. It is therefore a parameter, `Target.minIsValue`, and every result holds for both readings.
- **Options tree.** The tree is a value:
  - every operation returns the new tree, or an error;
  - each group's dict is an association list in insertion order, so `d[k] = v` overwrites in place or appends, as a Python dict does; the dictionary `get("")` returns is a finite map, without an order;
  - `is_type` is a parameter.
- **Frame.** A frame is a class holding its column names and `nkeys`. `colindex` is a parameter.

## Model

| member | source | states |
|---|---|---|
| Oint.Value | c/python/int.h:21-23 | `value<T>()` succeeds exactly when the integer is representable in T, returns it unchanged, and otherwise raises an overflow error carrying the value and the target type |
| Oint.ValueFlagged | c/python/int.h:25-28 | `value<T>(int*)` never fails. The flag is 0 exactly when the value fits, and the value is then returned as is. The flag is +1 exactly when the value is above MAX, with MAX returned. It is -1 exactly when the value is below the least accepted value, with -MAX returned |
| Oint.MaskedValue | c/python/int.h:30-32 | `masked_value<T>()` lies in T's range and is congruent to the integer modulo 2^bits |
| Oint.MaskedIsUnique | c/python/int.h:30-32 | the masked value is the only integer of T's range congruent to the input, i.e. it is exactly the two's-complement truncation |
| Oint.MaskedKeepsRepresentable | c/python/int.h:30-32 | truncation leaves a value unchanged if and only if the value lies in T's range |
| Oint.StrictAgreesWithFlagged | c/python/int.h:21-28 | the strict policy raises exactly when the flagged policy sets the flag, and both return the same number otherwise |
| Oint.MaskedAgreesWithStrict | c/python/int.h:21-32 | wherever the strict policy succeeds, the masked policy returns the same number |
| Oint.FromInt32 | c/python/int.h:38 | `oint(int32_t)` holds exactly the given number, which lies in int32's range |
| Oint.FromInt64 | c/python/int.h:39 | `oint(int64_t)` holds exactly the given number, which lies in int64's range |
| Oint.FromSize | c/python/int.h:40 | `oint(size_t)` holds exactly the given number, which lies in [0, 2^64) |
| Oint.Int64RoundTrip | c/python/int.h:38-40 | an `int64_t` wrapped by `oint(int64_t)` reads back unchanged through the strict int64 narrowing (INT64_MIN only when MIN counts as a value) |
| Oint.Int32RoundTrip | c/python/int.h:38-40 | an `int32_t` always reads back as an int64, and also as an int32 unless it is the excluded MIN |
| Oint.SizeToInt64 | c/python/int.h:38-40 | a `size_t` reads back as an int64 exactly when it is at most INT64_MAX |
| PyArg.Arg.constructor | c/python/arg.h:21-34 | a new argument is undefined: it has no object, no parent and an empty name memo |
| PyArg.Arg.Init | c/python/arg.h:37 | `init(i, args)` records the position and the parent binding and changes nothing else |
| PyArg.Arg.Set | c/python/arg.h:38 | `set(value)` binds the object, so the argument is no longer undefined, and changes nothing else |
| PyArg.Arg.IsUndefined | c/python/arg.h:41 | an undefined argument passes none of the other fourteen type checks |
| PyArg.Arg.IsNone | c/python/arg.h:42 | holds for None, and only for an argument that is bound |
| PyArg.Arg.IsEllipsis | c/python/arg.h:43 | holds for `...`, and only for an argument that is bound |
| PyArg.Arg.IsBool | c/python/arg.h:44 | holds for a bool, and only for an argument that is bound |
| PyArg.Arg.IsInt | c/python/arg.h:45 | holds for an int (a bool is not one), and only for an argument that is bound |
| PyArg.Arg.IsFloat | c/python/arg.h:46 | holds for a float, and only for an argument that is bound |
| PyArg.Arg.IsList | c/python/arg.h:47 | holds for a list, and only for an argument that is bound |
| PyArg.Arg.IsTuple | c/python/arg.h:48 | holds for a tuple, and only for an argument that is bound |
| PyArg.Arg.IsDict | c/python/arg.h:50 | holds for a dict, and only for an argument that is bound |
| PyArg.Arg.IsString | c/python/arg.h:51 | holds for a string, and only for an argument that is bound |
| PyArg.Arg.IsRange | c/python/arg.h:52 | holds for a range, and only for an argument that is bound |
| PyArg.Arg.IsFrame | c/python/arg.h:53 | holds for a datatable Frame, and only for an argument that is bound |
| PyArg.Arg.IsPandasFrame | c/python/arg.h:54 | holds for a pandas DataFrame, and only for an argument that is bound |
| PyArg.Arg.IsPandasSeries | c/python/arg.h:55 | holds for a pandas Series, and only for an argument that is bound |
| PyArg.Arg.IsNumpyArray | c/python/arg.h:56 | holds for a numpy array, and only for an argument that is bound |
| PyArg.Arg.IsListOrTuple | c/python/arg.h:49 | true exactly when the object is a list or a tuple |
| PyArg.Arg.IsBound | c/python/arg.h:77 | `operator bool` is true exactly when the argument is not undefined |
| PyArg.Arg.ToBoolStrict | c/python/arg.h:59 | fails with a missing-argument error exactly when undefined. It succeeds exactly on a Python bool, returning that bool, and fails with a type error on anything else |
| PyArg.Arg.ToIntStrict | c/python/arg.h:83-88 | the order of the checks: missing first, then a type error on any non-int (including None), then overflow exactly when the int does not fit the width; on success the int itself |
| PyArg.Arg.ToInt32Strict | c/python/arg.h:60 | succeeds exactly on an int that fits int32, to that int; missing when undefined; a type error on None |
| PyArg.Arg.ToInt64Strict | c/python/arg.h:61 | succeeds exactly on an int that fits int64, to that int; missing when undefined; a type error on None |
| PyArg.Arg.ToString | c/python/arg.h:64 | succeeds exactly on a string, returning it; missing when undefined |
| PyArg.Arg.ToStringList | c/python/arg.h:65 | missing when undefined; a type error on anything but a list or tuple; otherwise the element-wise string conversion |
| PyArg.StringItems | c/python/arg.h:65 | succeeds exactly when every element is a string, returning them in order with the same length. Otherwise it reports the index of the first element that is not a string |
| PyArg.Arg.ToPyObj | c/python/arg.h:68 | returns the bound object, if any |
| PyArg.Arg.Name | c/python/arg.h:98 | `name()` computes the name once, stores it in `cached_name`, and returns the stored name afterwards; nothing else changes |
| PyArg.NameIsMemoised | c/python/arg.h:98 | two calls of `name()` return the same name even if the parent binding would compute another one the second time |
| PyArg.UndefinedMatchesNothing | c/python/arg.h:21-25 | an undefined argument satisfies no shape predicate, and every conversion fails on it with the missing-argument error |
| PyArg.BoolIsNotInt | c/python/arg.h:44-45 | a bool is a bool and not an int: `to_bool_strict` succeeds and both integer conversions report a type error |
| PyArg.Int32ConversionImpliesInt64 | c/python/arg.h:60-61 | every argument that converts to int32 also converts to int64, to the same number |
| PyArg.StringListReportsFirstBadIndex | c/python/arg.h:65 | ["a", "b", 3] is rejected at index 2, and ["a", "b", "c"] converts to itself |
| WriteBuf.ResolveStrategy | c/writebuf.cc:47-53 | an explicit strategy is kept; `Auto` becomes `Write` exactly on macOS and `Mmap` elsewhere |
| WriteBuf.CreateTarget | c/writebuf.cc:40-62 | an empty path gives a memory buffer of the requested size. Otherwise the result is a file buffer exactly when the resolved strategy is `Write`, and a memory-mapped file of the requested size otherwise |
| WriteBuf.MemoryWritableBuffer.constructor | c/writebuf.cc:172-176 | a new memory buffer has nothing written and exactly `size` bytes allocated |
| WriteBuf.MemoryWritableBuffer.Realloc | c/writebuf.cc:184-188 | the new allocation has exactly the new size and keeps the first min(old, new) bytes |
| WriteBuf.MemoryWritableBuffer.PrepWrite | c/writebuf.cc:133-146 | returns the old write position and advances it by n. When the reservation does not fit, the allocation becomes twice the new end; otherwise it is unchanged. The end stays within the allocation and no stored byte moves |
| WriteBuf.MemoryWritableBuffer.WriteAt | c/writebuf.cc:149-158 | fails, changing nothing, exactly when [pos, pos+n) exceeds the allocation; otherwise exactly that range is overwritten with the chunk |
| WriteBuf.MemoryWritableBuffer.Finalize | c/writebuf.cc:161-164 | the allocation shrinks to exactly the bytes reserved, keeping them |
| WriteBuf.MemoryWritableBuffer.GetCptr | c/writebuf.cc:191-197 | hands the allocation to the caller and leaves the buffer empty (null, size 0) |
| WriteBuf.MemoryWritableBuffer.GetMbuf | c/writebuf.cc:200-204 | returns the allocation together with its size, and leaves the buffer empty |
| WriteBuf.MemoryWritableBuffer.GetString | c/writebuf.cc:207-211 | returns all allocated bytes and leaves the buffer as it is |
| WriteBuf.WriteTwoChunks | c/writebuf.cc:133-164 | reserving two chunks, copying each to its reserved position, finalizing and reading back yields exactly the two chunks concatenated, whatever the initial size |
| WriteBuf.FileWritableBuffer.constructor | c/writebuf.cc:70-72 | a new file buffer is open with nothing written |
| WriteBuf.FileWritableBuffer.PrepWrite | c/writebuf.cc:79-99 | a failed `::write` (-1) and a short write raise distinct errors and count nothing; a full write returns the old position and advances it by the size |
| WriteBuf.FileWritableBuffer.WriteAt | c/writebuf.cc:102-112 | `write_at` on a file buffer changes neither the count of bytes written nor the open state: the data went to the file in `prep_write` |
| WriteBuf.FileWritableBuffer.Finalize | c/writebuf.cc:115-118 | closes the file and keeps the count |
| DtOptions.FindChar | datatable/options.py:107 | `key.find(".")` is the first position of the character, or -1 exactly when it does not occur |
| DtOptions.Lookup | datatable/options.py:112 | `d.get(k)` finds an entry only when the dictionary holds it under k, and finds none exactly when no binding has the key k |
| DtOptions.Store | datatable/options.py:115 | assigning into a dict overwrites an existing key in place and appends a new one |
| DtOptions.LookupStore | datatable/options.py:133 | after storing under a key, that key finds the new entry, every other key finds what it found before, and keys stay distinct |
| DtOptions.LookupAfterStore | datatable/options.py:115 | for any dictionary, not only one with distinct keys: after `d[k] = e`, k finds e and every other key finds what it found before |
| DtOptions.NewConfig | datatable/options.py:31-38 | a new group is empty; a non-empty prefix gains a trailing "." and the empty prefix of the root group stays empty |
| DtOptions.Register | datatable/options.py:105-133 | `register_option`: a leading "." is an invalid name. An undotted key already present is "already registered". A default of the wrong type is rejected. Otherwise the option is appended under the key with its value set to the default. All of these leave the prefix unchanged |
| DtOptions.RegisterDotted | datatable/options.py:110-124 | a dotted key whose first segment is an option raises "already registered as an option" with the full names. Otherwise the rest of the key is registered in the existing group, or in a new group storing under the first segment |
| DtOptions.RegisterKeepsWF | datatable/options.py:105-133 | registration, successful or not, keeps the tree well formed: unique undotted keys, named groups with the right prefixes |
| DtOptions.RegisterAddsLeaf | datatable/options.py:105-133 | a successful registration adds exactly one option, named prefix + key with its value equal to the default, and keeps every other option |
| DtOptions.RegisterErrorKeepsLeaves | datatable/options.py:105-133 | a failed registration changes no option (an intermediate group it created stays, empty) |
| DtOptions.RegisterThenGet | datatable/options.py:105-148 | after a successful registration, `get(key)` returns the default |
| DtOptions.GetOpt | datatable/options.py:136-148 | `_get_opt`: a key of this group yields that very entry. An object found deeper, through a dotted key, is always a group and never an option. What else it returns is stated by GetAttrShape |
| DtOptions.GetAttr | datatable/options.py:41-55 | `__getattr__("")` is the flattened dictionary; any non-empty key that yields an object yields a group. GetAttrShape and GetFindsLeaf give the two directions of the lookup |
| DtOptions.GetAttrShape | datatable/options.py:41-47 | the converse of GetFindsLeaf, in a well-formed tree: a value `get(key)` returns is the value of the option named prefix + key; a group comes with a path whose keys joined by "." spell the key; a dictionary only for "" or a name ending in "."; the only errors are "Unknown option" with the full name and the missing attribute of an option's value |
| DtOptions.GetAttrBelow | datatable/options.py:140-145 | the dotted case of GetAttrShape: what the group under the first segment returns for the rest of the name keeps its shape for the whole name |
| DtOptions.GetAttrBelowAt | datatable/options.py:140-145 | a group found in a subgroup is returned by the parent under the path extended by the first segment, and that path spells the whole name |
| DtOptions.ShapeLift | datatable/options.py:145 | a value, dictionary or error passed up from a subgroup has the right shape for the full name in the parent |
| DtOptions.OptionIsLeaf | datatable/options.py:137-138 | an option stored under a key of a group is an option of the tree, named prefix + key |
| DtOptions.GetValueIsLeaf | datatable/options.py:41-45 | a value `get(key)` returns is the current value of an option of the tree named prefix + key |
| DtOptions.GetUnknownFails | datatable/options.py:146-148 | a name that is neither an option nor a group of the tree (and does not end in ".") makes `get` raise: "Unknown option" with the full name, or the missing attribute of an option's value |
| DtOptions.GetFindsLeaf | datatable/options.py:41-47 | in a well-formed tree, `get(name)` returns the current value of the option of that relative name, however deep |
| DtOptions.UnknownNamesFullKey | datatable/options.py:147-148 | the "Unknown datatable option" error names the key in full, prefix included, however deep the lookup recursed |
| DtOptions.LeavesDistinct | datatable/options.py:52 | in a well-formed tree no two options share a full name |
| DtOptions.Flatten | datatable/options.py:49-55 | every option that is a key of this group appears under its full name in `get("")` |
| DtOptions.FlattenInto | datatable/options.py:50-54 | the loop keeps every name already collected and adds the full name of each option key it visits |
| DtOptions.FlattenCoversLeaves | datatable/options.py:49-55 | `get("")` maps the full name of every option to its current value and has no other key |
| DtOptions.FlattenIter | datatable/options.py:49-55 | the loop of `__getattr__("")` computes the flattened dictionary |
| DtOptions.Set | datatable/options.py:58-72 | `__setattr__` succeeds exactly for an option that is a key of this group and a value of its type, and then replaces only that option's value. A value of the wrong type raises "Invalid value". A group, a dotted key or an unknown key raises the lookup's error or "Cannot modify group" |
| DtOptions.SetKeepsWF | datatable/options.py:58-72 | a successful set keeps the tree well formed |
| DtOptions.SetThenGet | datatable/options.py:58-72 | after a successful set, `get` returns the new value, and every other key of the group is unchanged |
| DtOptions.SetDottedKeyFails | datatable/options.py:58-72 | setting a dotted name always fails; when the name exists, as "Cannot modify group", even if it leads to an option |
| DtOptions.Reset | datatable/options.py:75-88 | `__delattr__`: the empty key resets the whole group. An option key restores that option's default. A group key resets that group; a dotted name that leads to a group, however deep, leaves that group reset at its path. A lookup error is passed on, and a plain value found through a dotted name raises the missing attribute |
| DtOptions.ResetGroupAt | datatable/options.py:81-82 | for a path of any length, the entry at the path afterwards is the group that was there, reset; a one-key path stores the reset group under that key; the prefix is kept |
| DtOptions.ResetGroupAtKeepsKeys | datatable/options.py:81-82 | resetting a group leaves every other key of the top group as it was |
| DtOptions.ResetGroupAtFrame | datatable/options.py:81-82 | resetting a group leaves every entry on a path that branches off the reset path as it was |
| DtOptions.EntryAtKeepsWF | datatable/options.py:136-145 | a group reached by a path in a well-formed tree is itself well formed |
| DtOptions.ResetGroupAtKeepsWF | datatable/options.py:81-82 | resetting the group at a path keeps the tree well formed |
| DtOptions.ResetKeepsWF | datatable/options.py:75-88 | every successful `reset(key)` keeps the tree well formed, for the empty key, an option and a group at any depth |
| DtOptions.ResetGroupThenGet | datatable/options.py:77-82 | after `reset(key)` on a name that resolves to a group, `get` on that group returns the default of every one of its options, however deep |
| DtOptions.ResetGroupByName | datatable/options.py:77-82 | `reset(key)` on a name `get` resolves to a group: the group's path spells the name, and after the reset that group is reset |
| DtOptions.ResetThenGet | datatable/options.py:78-80 | after resetting an option, `get` returns its default |
| DtOptions.ResetDottedOptionFails | datatable/options.py:77-82 | a dotted name that leads to an option cannot be reset: the lookup yields a plain value, which has no attribute to delete |
| DtOptions.ResetAll | datatable/options.py:83-88 | `__delattr__("")` keeps the prefix and the number of keys |
| DtOptions.ResetFrom | datatable/options.py:84-88 | the loop over the remaining bindings yields one binding for each |
| DtOptions.ResetBinding | datatable/options.py:85-88 | one binding reset: same key and kind; an option's value becomes its default and nothing else of it changes; a group keeps its prefix |
| DtOptions.ResetAllKeepsKeys | datatable/options.py:83-88 | `reset("")` keeps every key in its place, and whether it holds an option or a group |
| DtOptions.ResetAllDefaultsLeaves | datatable/options.py:83-88 | `reset("")` leaves the same options in the same order, each with its value set to its default |
| DtOptions.ResetAllKeepsWF | datatable/options.py:83-88 | `reset("")` keeps the tree well formed |
| DtOptions.ResetAllRestoresDefaults | datatable/options.py:83-88 | after `reset("")`, `get("")` has the same names as before and maps each to its option's default |
| DtOptions.ResetInPlace | datatable/options.py:84-88 | the loop of `__delattr__("")` computes the reset tree |
| FrameKey.Refs | datatable/frame.py:53-55 | a single int or str reference counts as a list of one, a list as itself, None as no reference |
| FrameKey.Select | datatable/frame.py:64-67 | taking the columns in the order idx: one name per position, the name at that position |
| FrameKey.NewOrder | datatable/frame.py:62-63 | `colindices + [the rest]`: starts with the key positions; the rest are below the column count, not key positions, and in increasing order |
| FrameKey.Frame.constructor | datatable/frame.py:29 | a frame with the given column names has no key |
| FrameKey.Range | datatable/frame.py:57 | `list(range(a, b))` has length b - a and holds a, a+1, ... in order |
| FrameKey.Remaining | datatable/frame.py:62-63 | the positions below n not among the key positions |
| FrameKey.DeleteKeepsOthersInOrder | datatable/frame.py:268-279 | a position survives deletion exactly when it is below the column count and not deleted, and the survivors stay in increasing order |
| FrameKey.ResolveAll | datatable/frame.py:56 | `colindex` of every reference: succeeds exactly when every reference resolves, with the positions in order, or reports the first reference `colindex` rejects |
| FrameKey.Frame.Key | datatable/frame.py:41-45 | the key is a prefix of the column names of length min(nkeys, ncols) |
| FrameKey.Frame.SetKey | datatable/frame.py:48-68 | None clears the key. An unresolvable reference raises its error and changes nothing. Otherwise the setter succeeds exactly when the positions are 0..nk-1 or distinct. On success the columns are reordered key first, the rest in their old order; the key names are the requested ones and no name is lost. On duplicates it raises "Duplicate columns" with the requested names and changes nothing |
| FrameKey.SetSizeIsDistinct | datatable/frame.py:61 | `len(set(colindices)) == nk` holds exactly when the positions are distinct |
| FrameKey.InOrderKeepsColumns | datatable/frame.py:57-60 | key positions 0..nk-1 give the identity order, so skipping the rebuild agrees with the general reordering |
| FrameKey.NewOrderIsPermutation | datatable/frame.py:61-64 | with distinct key positions, `colindices + [the rest]` lists every column exactly once and starts with the key |
| FrameKey.KeyIsRequestedColumns | datatable/frame.py:61-68 | after reordering, the first nk names are those of the requested columns in the requested order, and the names as a whole are a permutation of the old names |
| FrameKey.PermutationKeepsNames | datatable/frame.py:62-64 | taking the columns in permuted order keeps the multiset of names |
| FrameKey.Frame.DeleteColumns | datatable/frame.py:268-279 | `_delete_columns` keeps exactly the names at positions not deleted, in their order; the count drops by the number deleted; `nkeys` is unchanged |
| FrameKey.SurvivingNames | datatable/frame.py:275-279 | the loop that glues the runs between deleted positions yields exactly the surviving names in order |
| FrameKey.DeleteNothingIsNoOp | datatable/frame.py:270-271 | deleting no column leaves the names as they are |
| FrameKey.RemainingCount | datatable/frame.py:274 | with distinct in-range positions, the column count after deletion is the old count minus the number deleted |

## Left out

- `oint()` (the null constructor), `oint(double)`, `value<float>` / `value<double>`: floating point is not modelled.
- The reference counting, copying and moving of `oint` are left out: Python object lifetime is not modelled.
- `Arg::to_pylist`, `to_pydict`, `to_stype`, `to_frame`, `obj`, `to_borrowed_ref`, `typeobj` and `print`: these return or print foreign Python/C++ objects beyond the bound object itself.
- `error_manager` and the error message texts are left out: errors are reduced to their kind and the values they name.
- PyArg.Arg.constructor: `Arg()` is only declared (c/python/arg.h:34); its body is in `arg.cc`, which is not part of this model. Position 0, no parent, no object and an empty name memo are this model's choice of the undefined state.
- PyArg.Arg.Name: `PKArgs::make_arg_name` is not part of this model, so the name it would compute is a parameter.
- The `is_*` predicates classify the bound object by a closed set of shapes. Python's own `isinstance` checks, and subclasses generally, are not modelled. The exception is bool, which is not counted as an int.
- The bodies of `to_bool_strict` .. `to_stringlist` are in `arg.cc`, which is not part of this model. They follow the documented behaviour: missing first, then the shape, then the value.
- WriteBuf.MemoryWritableBuffer.PrepWrite: `size_t` wrap-around of `pos + n` and `nbw * 2` (c/writebuf.cc:135-139) is not modelled; integers are unbounded.
- WriteBuf.MemoryWritableBuffer.WriteAt: `size_t` wrap-around of `pos + n` in the bounds check (c/writebuf.cc:150) is not modelled, so a huge pos whose sum wraps below the allocation is rejected here but would pass the C++ check.
- WriteBuf.FileWritableBuffer.PrepWrite: `size_t` wrap-around of `bytes_written += size` (c/writebuf.cc:97) is not modelled.
- The shared mutex of `ThreadsafeWritableBuffer` is left out, and so is concurrent `write_at` from several threads; the model is sequential.
- `MmapWritableBuffer` (map, unmap, realloc through the file system) is left out: it is file system and memory-mapping I/O. `create_target` still selects it.
- FileWritableBuffer.PrepWrite: the bytes reaching the file are not modelled; the result of `::write` is a parameter.
- `FileWritableBuffer::write_at` is modelled as a method that does nothing, as in the source.
- `is_type` and `name_type` are parameters, and "default is not of type" is the error kind `BadDefault` without the message.
- DtOptions: the tree is a value. Python's in-place mutation of shared `DtConfig` objects is represented by returning the updated tree, and `_get_opt`'s returned objects become paths into the tree.
- `DtConfig.__dir__` (the list of keys) is not modelled.
- DtOptions.Flatten: returns a finite map, so the insertion order of the dict that `get("")` builds (datatable/options.py:49-55) is not modelled. Only which value each name maps to is. That value does not depend on the merge order in a well-formed tree, where no two options share a full name (LeavesDistinct).
- The module-level `options = DtConfig()` global is not modelled; every operation takes the tree it works on.
- `Frame.colindex` is a parameter. Its error for an unknown name or an out-of-range index is the error kind `UnknownColumn`.
- The frame rebuild `self.__init__(self[:, allindices])` is modelled only by the new order of the names; the column data is not modelled.
- The native `delete_columns` and its `assert` on the column count are modelled only by their effect on the names.
- FrameKey.Frame.DeleteColumns: requires the positions to be strictly increasing and in range. The comment at datatable/frame.py:269 asks for a sorted list of indices. Distinct, in-range positions are what the assert on the column count at datatable/frame.py:274 depends on. Unsorted or repeated positions are not modelled.
- FrameKey.Frame.DeleteColumns: `nkeys` unchanged is what the Python body does. The native `delete_columns` it calls (datatable/frame.py:273) is not part of this model, so whether it adjusts the key is not modelled.
- The rest of `Frame` (display, `__getitem__`, `_rbind`, conversions, …) is outside this model.
