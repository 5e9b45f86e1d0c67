# RhoJVM class identity and class metadata, modelled in Dafny

This project models the class-identity and class-metadata layer of RhoJVM's base
crate: the opaque handles for classes, packages and methods (`rhojvm-base/src/id.rs`),
and the class metadata built on them (`rhojvm-base/src/class.rs`):

- typed constant-pool lookups over a parsed class file;
- this-class and super-class name resolution, with one error per broken link;
- the `Class` shape and its method-slot enumeration;
- array pseudo-classes and their component types, with field descriptors;
- the closed `ClassVariant` union.

Files and modules:

- `wrappers.dfy` (`Wrappers`): Rust's `Option` and `Result`.
- `id.dfy` (`Id`): the `u8`/`u16`/`u32` widths, `ClassId`, `PackageId`, `ExactMethodId`, `MethodId`, `is_array_class` and `is_array_class_bytes`. It also has a UTF-8 encoder (RFC 3629), so that the string test and the byte test can be related.
- `classfile.dfy` (`ClassFileParser`): the parsed class file the layer wraps, as plain data. The constant pool is the sequence of its entries, addressed from 1; index 0 names no entry (section 4.1 of the Java Virtual Machine Specification). Each entry is a class entry, a UTF-8 entry, or another kind this layer never reads.
- `types.dfy` (`Types`): the ten primitive kinds of the runtime's type layer.
- `names.dfy` (`Names`): the `ClassNames` registry, seen through its two operations. `gcid_from_str` interns or fetches; `name_from_gcid` looks a name up or fails with `BadIdError`. The registry is a class with an intern map, an identity-to-name map and a counter for fresh identities. The registry's own source is not part of this model, so its name parsing is modelled as follows. A string starting with `[` is an array name, kept whole as one path segment. Any other string is split at `/`.
- `class.dfy` (`Classes`): `ClassFileData` is a class whose constant pool is the only part that changes, through `GetTMut`. It also holds `Class`, `ArrayClass`, `ClassVariant`, `ArrayComponentType` and the conversion from `PrimitiveType`.

`ClassFileId` is the same type as `ClassId`: `Class::super_id` returns it where an `Option<ClassId>` is expected. The plain field accessors carry no contract of their own; the `New`/`NewUnchecked` contracts and `VariantDispatch` state what they return. These are `ClassFileData.Id`, `AccessFlags`, `InterfacesIndicesIter`, and the `Id`/`SuperId`/`Package`/`Name`/`ComponentType` accessors of `Class`, `ArrayClass` and `ClassVariant`.

## Model

| member | source | states |
|---|---|---|
| `Id.ClassId.NewUnchecked` | rhojvm-base/src/id.rs:7-14 | `get` returns the value the identity was built from |
| `Id.ClassId.Eq` | rhojvm-base/src/id.rs:18-22 | two class ids are equal exactly when their 32-bit values are equal, so handle equality is value equality |
| `Id.ExactMethodId.UncheckedCompose` | rhojvm-base/src/id.rs:57-67 | decomposing a composed exact handle gives back the (class, slot) pair, for every class and every 16-bit slot |
| `Id.ComposeDecomposed` | rhojvm-base/src/id.rs:57-67 | composing the two halves of a decomposed exact handle gives back the handle |
| `Id.MethodId.UncheckedCompose` | rhojvm-base/src/id.rs:77-79 | a composed method handle decomposes to `Some((class, slot))` and narrows to the composed exact handle |
| `Id.MethodId.Decompose` | rhojvm-base/src/id.rs:82-84 | the result is `None` exactly for `ArrayClone`; every exact handle decomposes to `Some` of its own pair |
| `Id.MethodId.IntoExact` | rhojvm-base/src/id.rs:87-92 | the result is `None` exactly for `ArrayClone` |
| `Id.MethodId.FromExact` | rhojvm-base/src/id.rs:94-98 | converting an exact handle and narrowing it back with `into_exact` returns that handle; the result is never `ArrayClone` |
| `Id.DecomposeIffComposed` | rhojvm-base/src/id.rs:77-92 | a method handle decomposes to a pair exactly when it is the composition of that pair |
| `Id.IntoExactInverse` | rhojvm-base/src/id.rs:87-98 | `into_exact` gives `Some(e)` exactly for the handle converted from `e` |
| `Id.IsArrayClass` | rhojvm-base/src/id.rs:100-102 | the prefix test holds iff the name is non-empty and starts with `[`; the empty name is not an array class |
| `Id.IsArrayClassBytes` | rhojvm-base/src/id.rs:104-106 | the byte prefix test holds iff the bytes are non-empty and the first is `0x5B` |
| `Id.Utf8EncodeCharIsUtf8` | rhojvm-base/src/id.rs:104-106 | the encoder used to relate the two tests is UTF-8: the length follows the scalar's range, the lead byte announces that length, continuation bytes are `10xxxxxx`, and decoding gives back the scalar |
| `Id.LeadByteIsBracket` | rhojvm-base/src/id.rs:104-106 | only `[` has a UTF-8 encoding whose lead byte is `0x5B` |
| `Id.IsArrayClassBytesAgrees` | rhojvm-base/src/id.rs:100-106 | on the UTF-8 bytes of any string, the byte test agrees with the string test |
| `Names.NameOf` | rhojvm-base/src/class.rs:309-311 | a registry name is flagged as an array exactly when its text is an array class name |
| `Names.JoinSplit` | rhojvm-base/src/class.rs:316 | joining the `/`-split segments of a name with `/` gives back the name |
| `Names.SplitJoin` | rhojvm-base/src/class.rs:316 | splitting a `/`-join of segments free of `/` gives back the segments |
| `Names.ClassNames.GcidFromStr` | rhojvm-base/src/class.rs:110-112 | intern-or-fetch: an interned string gets its existing id and leaves the registry, counter included, unchanged; a new string gets the counter's value as a fresh id, its parsed name is recorded, exactly one entry is added to each map, the counter goes up by one, and the registry invariant holds |
| `Names.ClassNames.NameFromGcid` | rhojvm-base/src/class.rs:309 | `Ok` of the recorded name exactly when the id was issued, `BadIdError` of that id otherwise |
| `Names.InternInjective` | rhojvm-base/src/class.rs:110-112 | a valid registry never gives two different strings the same id |
| `Classes.ClassFileData.constructor` | rhojvm-base/src/class.rs:26-33 | holds the given file identity and parsed file |
| `Classes.ClassFileData.Version` | rhojvm-base/src/class.rs:40-43 | the version is always present |
| `Classes.ClassFileData.GetT` | rhojvm-base/src/class.rs:45-50 | an entry is found exactly when the index is non-zero, in range, and holds an entry of the expected kind; what is returned is that entry, so it never has the wrong kind |
| `Classes.ClassFileData.GetTMut` | rhojvm-base/src/class.rs:52-60 | the slot is writable exactly when the kind-checked lookup finds it; only that slot changes, and afterwards it holds the new entry |
| `Classes.ClassFileData.GetTextT` | rhojvm-base/src/class.rs:62-64 | text exists exactly when a UTF-8 entry is at the index, and it is that entry's string |
| `Classes.ClassFileData.GetMethod` | rhojvm-base/src/class.rs:66-69 | absent exactly when the index is out of range, otherwise the method at that 0-based index |
| `Classes.ClassFileData.Methods` | rhojvm-base/src/class.rs:71-74 | the method table in order: its k-th element is what `get_method(k)` returns, and there is nothing past its end |
| `Classes.ClassFileData.GetThisClassName` | rhojvm-base/src/class.rs:81-88 | `InvalidThisClassIndex` exactly when `this_class` is not a class entry; `InvalidThisClassNameIndex` exactly when it is one but its `name_index` is not a UTF-8 entry; otherwise `Ok` of the name the pool gives that class |
| `Classes.ClassFileData.GetSuperClassName` | rhojvm-base/src/class.rs:90-104 | a zero `super_class` gives `Ok(None)` whatever the pool holds; a non-zero one never gives `Ok(None)`: it gives the error for the first broken link, otherwise `Ok(Some(name))` |
| `Classes.ClassFileData.GetSuperClassId` | rhojvm-base/src/class.rs:106-113 | the name-resolution errors pass through unchanged and leave the registry alone; no superclass gives `Ok(None)` and leaves it alone; a known name gives `Ok(Some(id))` of its existing id with the registry unchanged; a new name gets a fresh id, with exactly one entry added to each registry map and the counter up by one |
| `Classes.Class.New` | rhojvm-base/src/class.rs:180-209 | the accessors return the identity, super identity, package and flags given, and there are as many method ids as the given table length |
| `Classes.Class.IterMethodIds` | rhojvm-base/src/class.rs:211-216 | exactly `len_method_idx` handles; the k-th decomposes to (own id, k), so slots ascend; slot k is present iff k < `len_method_idx`; every handle carries the class's own id |
| `Classes.ArrayClass.NewUnchecked` | rhojvm-base/src/class.rs:229-269 | the accessors return the identity, name, component type, super identity and flags given |
| `Classes.ClassVariant.AsClass` | rhojvm-base/src/class.rs:152-158 | `Some` exactly for the class variant, and it returns the wrapped class |
| `Classes.ClassVariant.AsArray` | rhojvm-base/src/class.rs:160-166 | `Some` exactly for the array variant, and it returns the wrapped array class |
| `Classes.VariantExclusive` | rhojvm-base/src/class.rs:152-166 | exactly one of `as_class` and `as_array` is `Some` |
| `Classes.VariantDispatch` | rhojvm-base/src/class.rs:127-150 | `id`, `super_id` and `access_flags` answer with the fields of the wrapped value; for an array variant, `super_id` is always `Some` of the array's super class |
| `Classes.ArrayComponentType.IsPrimitive` | rhojvm-base/src/class.rs:287-289 | primitive exactly when `into_class_id` is `None` |
| `Classes.ArrayComponentType.IntoClassId` | rhojvm-base/src/class.rs:291-298 | `Some(id)` exactly for the class variant carrying `id` |
| `Classes.ArrayComponentType.FromPrimitive` | rhojvm-base/src/class.rs:325-337 | total and always primitive with no class id; byte and unsigned byte give `Byte`, short and unsigned short give `Short`, and every other kind gives the component type of the same name |
| `Classes.FromPrimitiveDescriptors` | rhojvm-base/src/class.rs:300-337 | after conversion, each of the ten primitive kinds has its `BaseType` letter as descriptor; both byte kinds give `B` and both short kinds give `S` |
| `Classes.FromPrimitiveCollapses` | rhojvm-base/src/class.rs:325-337 | two primitive kinds convert to the same component type exactly when they are equal, or are byte and unsigned byte, or are short and unsigned short |
| `Classes.FromPrimitiveOnto` | rhojvm-base/src/class.rs:325-337 | every primitive component type comes from some primitive kind |
| `Classes.ArrayComponentType.DescriptorOf` | rhojvm-base/src/class.rs:300-322 | a primitive gives a one-letter code from `BCDFIJSZ` and never fails; a class fails exactly when its id is unknown, with that id's `BadIdError`; a class descriptor starts with `L` or `[` |
| `Classes.ArrayComponentType.ToDescString` | rhojvm-base/src/class.rs:300-322 | the string produced through the registry is the descriptor of the component under the registry's name table |
| `Classes.PrimitiveDescriptors` | rhojvm-base/src/class.rs:302-320 | Byte→`B`, Char→`C`, Double→`D`, Float→`F`, Int→`I`, Long→`J`, Short→`S`, Boolean→`Z`, under any name table |
| `Classes.StringDescriptor` | rhojvm-base/src/class.rs:308-318 | a non-array name with path `java`,`lang`,`String` gives `Ljava/lang/String;` |
| `Classes.DescriptorOfInterned` | rhojvm-base/src/class.rs:308-318 | for a class interned from the string `s`, the descriptor is `s` itself when `s` is an array name, and `L` + `s` + `;` otherwise |
| `Classes.ObjectDescriptorParsesBack` | rhojvm-base/src/class.rs:308-318 | an object descriptor is `L…;`, and splitting its inside at `/` gives back the name's path |
| `Classes.ClassDescriptorIdentifiesClass` | rhojvm-base/src/class.rs:308-318 | under a valid registry, two known class ids with the same descriptor are the same id |
| `Classes.DescriptorIdentifiesComponent` | rhojvm-base/src/class.rs:300-322 | under a valid registry, two component types with the same successful descriptor are equal; primitive codes are pairwise distinct and never clash with class descriptors |

## Left out

- `ClassFileData.path` is a diagnostic-only field, so it is not modelled.
- `Debug` formatting, the `Hash` implementations and the `nohash_hasher` marker (`rhojvm-base/src/id.rs:24-36`) are not modelled. They add no behaviour beyond equality.
- The class-file byte parser and the parser crate's constant-pool internals are not part of this model. The pool is a sequence of tagged entries with one kind-checked lookup. It has no two-slot `long`/`double` entries other than as "other" entries.
- Generic typed indices (`ConstantPoolIndex<T>` with `TryInto`/`TryFrom` casts) are modelled as an explicit kind argument to one lookup.
- `Classes.ClassFileData.GetTMut`: models the mutable borrow as writing one whole entry of the expected kind into the slot. Rust lifetimes, and partial writes through the borrowed reference, are not modelled.
- `ClassAccessFlags`, `ClassFileVersion` and `MethodInfo` are uninterpreted records that are only passed through. `MethodInfo`'s attributes are not modelled.
- `ClassNames` is not part of this model beyond `gcid_from_str` and `name_from_gcid`. Its name parsing is modelled as described above. Its identity allocation is a counter.
- `Names.ClassNames.GcidFromStr`: requires that interning a new string does not exhaust the 32-bit identity space. The registry's behaviour at exhaustion is not part of this model.
- `Classes.ClassFileData.GetSuperClassId`: inherits that same requirement when the super-class name is new to the registry.
- The registry invariant says that an array name has exactly one path segment. So the `path[0]` in `to_desc_string` never indexes an empty path, and the descriptor functions require that invariant of the name table.
- `PackageId::new_unchecked` is a bare wrapper with nothing to state. `PackageId` is modelled as a datatype over `u32`.
- Concurrency: the code has none.
