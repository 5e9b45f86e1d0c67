/**
  Class metadata (rhojvm-base/src/class.rs): typed constant-pool access and
  this/super class name resolution over a parsed class file, the distilled
  `Class` shape, array pseudo-classes and their component types, and the
  closed `ClassVariant` union over the two kinds of class.
 */
module Classes {
  import opened Wrappers
  import opened Id
  import opened ClassFileParser
  import opened Names
  import Types

  /** Which link of a two-step constant-pool name chain is broken. */
  datatype ClassFileIndexError =
    | InvalidThisClassIndex
    | InvalidThisClassNameIndex
    | InvalidSuperClassIndex
    | InvalidSuperClassNameIndex

  /** A parsed class file under its file identity; only constant-pool contents may change. */
  class ClassFileData {
    const id: ClassFileId
    var classFile: ClassFile

    constructor (id: ClassFileId, classFile: ClassFile)
      ensures this.id == id && this.classFile == classFile
    {
      this.id := id;
      this.classFile := classFile;
    }

    function Id(): ClassFileId {
      id
    }

    function Version(): (v: Option<ClassFileVersion>)
      reads this
      ensures v.Some?
    {
      Some(classFile.version)
    }

    function AccessFlags(): ClassAccessFlags
      reads this
    {
      classFile.accessFlags
    }

    function InterfacesIndicesIter(): seq<u16>
      reads this
    {
      classFile.interfaces
    }

    /**
      Kind-checked constant-pool lookup: the entry at `i` when there is one and
      it is of the kind the index expects, absent otherwise.
     */
    function GetT(kind: ConstantKind, i: u16): (r: Option<ConstantInfo>)
      reads this
      ensures r.Some? <==> 0 < i as int <= |classFile.constPool| && KindOf(classFile.constPool[i - 1]) == Some(kind)
      ensures r.Some? ==> KindOf(r.value) == Some(kind) && r.value == classFile.constPool[i - 1]
      ensures i == 0 ==> r == None
    {
      if 0 < i as int <= |classFile.constPool| && KindOf(classFile.constPool[i - 1]) == Some(kind) then
        Some(classFile.constPool[i - 1])
      else
        None
    }

    /** The text of the UTF-8 entry at `i`. */
    function GetTextT(i: u16): (r: Option<string>)
      reads this
      ensures r.Some? <==> GetT(Utf8Kind, i).Some?
      ensures r.Some? ==> GetT(Utf8Kind, i) == Some(Utf8Constant(r.value))
    {
      match GetT(Utf8Kind, i)
      case Some(c) => Some(c.utf8String)
      case None => None
    }

    /**
      The mutable borrow of one pool slot, modelled as writing `value` (of the
      kind the index expects) into it when the kind-checked lookup finds it.
     */
    method GetTMut(kind: ConstantKind, i: u16, value: ConstantInfo) returns (found: bool)
      requires KindOf(value) == Some(kind)
      modifies this
      ensures found <==> old(GetT(kind, i)).Some?
      ensures found ==> GetT(kind, i) == Some(value)
      ensures found ==> classFile == old(classFile).(constPool := old(classFile.constPool)[i - 1 := value])
      ensures !found ==> classFile == old(classFile)
      ensures forall j: u16 :: j != i ==> GetT(kind, j) == old(GetT(kind, j))
    {
      found := GetT(kind, i).Some?;
      if found {
        classFile := classFile.(constPool := classFile.constPool[i - 1 := value]);
      }
    }

    function GetMethod(index: nat): (r: Option<MethodInfo>)
      reads this
      ensures r.Some? <==> index < |classFile.methods|
      ensures r.Some? ==> r.value == classFile.methods[index]
    {
      if index < |classFile.methods| then Some(classFile.methods[index]) else None
    }

    /** All methods in declaration order; slot `k` is what `GetMethod(k)` returns. */
    function Methods(): (ms: seq<MethodInfo>)
      reads this
      ensures forall k :: 0 <= k < |ms| ==> GetMethod(k) == Some(ms[k])
      ensures GetMethod(|ms|) == None
    {
      classFile.methods
    }

    /**
      The pool names the class `name` at `i`: `i` holds a class entry whose
      `name_index` holds the UTF-8 entry `name` (section 4.4.1 of the Java
      Virtual Machine Specification).
     */
    ghost predicate NamesClass(i: u16, name: string)
      reads this
    {
      && GetT(ClassKind, i).Some?
      && GetTextT(GetT(ClassKind, i).value.nameIndex) == Some(name)
    }

    /** The class entry at `i` exists but its name index leads to no UTF-8 entry. */
    ghost predicate NameLinkBroken(i: u16)
      reads this
    {
      && GetT(ClassKind, i).Some?
      && GetTextT(GetT(ClassKind, i).value.nameIndex).None?
    }

    function GetThisClassName(): (r: Result<string, ClassFileIndexError>)
      reads this
      ensures r == Err(InvalidThisClassIndex) <==> GetT(ClassKind, classFile.thisClass).None?
      ensures r == Err(InvalidThisClassNameIndex) <==> NameLinkBroken(classFile.thisClass)
      ensures r.Err? ==> r.error.InvalidThisClassIndex? || r.error.InvalidThisClassNameIndex?
      ensures r.Ok? ==> NamesClass(classFile.thisClass, r.value)
    {
      match GetT(ClassKind, classFile.thisClass)
      case None => Err(InvalidThisClassIndex)
      case Some(thisClass) =>
        match GetTextT(thisClass.nameIndex)
        case Some(name) => Ok(name)
        case None => Err(InvalidThisClassNameIndex)
    }

    /** Like `GetThisClassName`, except that a zero `super_class` index means "no superclass". */
    function GetSuperClassName(): (r: Result<Option<string>, ClassFileIndexError>)
      reads this
      ensures classFile.superClass == 0 ==> r == Ok(None)
      ensures classFile.superClass != 0 ==> r != Ok(None)
      ensures r == Err(InvalidSuperClassIndex) <==>
        classFile.superClass != 0 && GetT(ClassKind, classFile.superClass).None?
      ensures r == Err(InvalidSuperClassNameIndex) <==>
        classFile.superClass != 0 && NameLinkBroken(classFile.superClass)
      ensures r.Err? ==> r.error.InvalidSuperClassIndex? || r.error.InvalidSuperClassNameIndex?
      ensures r.Ok? && r.value.Some? ==> NamesClass(classFile.superClass, r.value.value)
    {
      if classFile.superClass == 0 then
        Ok(None)
      else
        match GetT(ClassKind, classFile.superClass)
        case None => Err(InvalidSuperClassIndex)
        case Some(superClass) =>
          match GetTextT(superClass.nameIndex)
          case Some(name) => Ok(Some(name))
          case None => Err(InvalidSuperClassNameIndex)
    }

    /** The super-class name, interned through the registry. */
    method GetSuperClassId(classNames: ClassNames) returns (r: Result<Option<ClassFileId>, ClassFileIndexError>)
      requires classNames.Valid()
      requires (GetSuperClassName().Ok? && GetSuperClassName().value.Some? &&
                GetSuperClassName().value.value !in classNames.ids) ==> classNames.next < 0x1_0000_0000
      modifies classNames
      ensures classNames.Valid()
      ensures GetSuperClassName().Err? ==> r == Err(GetSuperClassName().error) && unchanged(classNames)
      ensures GetSuperClassName() == Ok(None) ==> r == Ok(None) && unchanged(classNames)
      ensures GetSuperClassName().Ok? && GetSuperClassName().value.Some? ==>
        var name := GetSuperClassName().value.value;
        && name in classNames.ids
        && r == Ok(Some(classNames.ids[name]))
        && classNames.names[classNames.ids[name]] == NameOf(name)
        && (name in old(classNames.ids) ==> unchanged(classNames) && r == Ok(Some(old(classNames.ids)[name])))
        && (name !in old(classNames.ids) ==>
              var id := classNames.ids[name];
              && id !in old(classNames.names)
              && classNames.ids == old(classNames.ids)[name := id]
              && classNames.names == old(classNames.names)[id := NameOf(name)]
              && classNames.next == old(classNames.next) + 1)
    {
      match GetSuperClassName()
      case Err(e) =>
        r := Err(e);
      case Ok(None) =>
        r := Ok(None);
      case Ok(Some(name)) =>
        var superId := classNames.GcidFromStr(name);
        r := Ok(Some(superId));
    }
  }

  /**
    The distilled runtime view of a class. `lenMethodIdx` is the length of its
    method table; slots below it are addressable, not necessarily loaded.
   */
  datatype Class = Class(
    id: ClassId,
    superClass: Option<ClassFileId>,
    package: Option<PackageId>,
    accessFlags: ClassAccessFlags,
    lenMethodIdx: MethodIndex)
  {
    static function New(
      id: ClassId,
      superClass: Option<ClassFileId>,
      package: Option<PackageId>,
      accessFlags: ClassAccessFlags,
      lenMethodIdx: MethodIndex): (c: Class)
      ensures c.Id() == id && c.SuperId() == superClass && c.Package() == package
      ensures c.accessFlags == accessFlags
      ensures |c.IterMethodIds()| == lenMethodIdx as int
    {
      Class.Class(id, superClass, package, accessFlags, lenMethodIdx)
    }

    function Id(): ClassId {
      id
    }

    function SuperId(): Option<ClassFileId> {
      superClass
    }

    function Package(): Option<PackageId> {
      package
    }

    /**
      The method handles of every addressable slot of this class: exactly
      `lenMethodIdx` of them, in ascending slot order, all for this class.
     */
    function IterMethodIds(): (r: seq<MethodId>)
      ensures |r| == lenMethodIdx as int
      ensures forall k :: 0 <= k < |r| ==> r[k].Decompose() == Some((id, k as MethodIndex))
      ensures forall m :: m in r ==> m.Decompose().Some? && m.Decompose().value.0 == id
      ensures forall k: MethodIndex :: MethodId.UncheckedCompose(id, k) in r <==> k < lenMethodIdx
      ensures forall i, j :: 0 <= i < j < |r| ==> r[i].Decompose().value.1 < r[j].Decompose().value.1
    {
      var r := seq(lenMethodIdx as int, k requires 0 <= k < lenMethodIdx as int =>
        MethodId.UncheckedCompose(id, k as MethodIndex));
      assert forall k: MethodIndex :: k < lenMethodIdx ==> r[k as int] == MethodId.UncheckedCompose(id, k);
      r
    }
  }

  /**
    A synthetic class for an array type, with no backing class file. Its
    super class is, by construction, `java/lang/Object`.
   */
  datatype ArrayClass = ArrayClass(
    id: ClassId,
    name: string,
    componentType: ArrayComponentType,
    superClass: ClassId,
    accessFlags: ClassAccessFlags)
  {
    static function NewUnchecked(
      id: ClassId,
      name: string,
      componentType: ArrayComponentType,
      superClass: ClassId,
      accessFlags: ClassAccessFlags): (a: ArrayClass)
      ensures a.Id() == id && a.Name() == name && a.ComponentType() == componentType
      ensures a.SuperId() == superClass && a.accessFlags == accessFlags
    {
      ArrayClass(id, name, componentType, superClass, accessFlags)
    }

    /** For diagnostics only; not an identity. */
    function Name(): string {
      name
    }

    function Id(): ClassId {
      id
    }

    function ComponentType(): ArrayComponentType {
      componentType
    }

    function SuperId(): ClassId {
      superClass
    }
  }

  /** The closed union of the two kinds of class. */
  datatype ClassVariant = Class(cls: Class) | Array(arr: ArrayClass) {

    function Id(): ClassId {
      match this
      case Class(x) => x.id
      case Array(x) => x.id
    }

    function SuperId(): Option<ClassId> {
      match this
      case Class(x) => x.SuperId()
      case Array(x) => Some(x.SuperId())
    }

    function AccessFlags(): ClassAccessFlags {
      match this
      case Class(x) => x.accessFlags
      case Array(x) => x.accessFlags
    }

    function AsClass(): (r: Option<Class>)
      ensures r.Some? <==> this.Class?
      ensures r.Some? ==> this == ClassVariant.Class(r.value)
    {
      match this
      case Class(x) => Some(x)
      case Array(_) => None
    }

    function AsArray(): (r: Option<ArrayClass>)
      ensures r.Some? <==> this.Array?
      ensures r.Some? ==> this == ClassVariant.Array(r.value)
    {
      match this
      case Class(_) => None
      case Array(x) => Some(x)
    }
  }

  /** Exactly one narrowing succeeds. */
  lemma VariantExclusive(v: ClassVariant)
    ensures v.AsClass().Some? != v.AsArray().Some?
  {
  }

  /**
    The shared accessors answer with the fields of whichever class the variant
    narrows to, and an array variant always has a super class.
   */
  lemma VariantDispatch(v: ClassVariant)
    ensures v.AsClass().Some? ==>
      var c := v.AsClass().value;
      v.Id() == c.Id() && v.SuperId() == c.SuperId() && v.AccessFlags() == c.accessFlags
    ensures v.AsArray().Some? ==>
      var a := v.AsArray().value;
      v.Id() == a.Id() && v.SuperId() == Some(a.SuperId()) && v.AccessFlags() == a.accessFlags
  {
  }

  /** The element type of an array class: one of the eight primitives, or a class. */
  datatype ArrayComponentType =
    | Boolean
    | Char
    | Byte
    | Short
    | Int
    | Long
    | Float
    | Double
    | Class(id: ClassId)
  {
    function IsPrimitive(): (r: bool)
      ensures r <==> IntoClassId().None?
    {
      !this.Class?
    }

    /** The carried identity, for the class variant only. */
    function IntoClassId(): (r: Option<ClassId>)
      ensures r.Some? <==> this.Class?
      ensures r.Some? ==> this == ArrayComponentType.Class(r.value)
    {
      match this
      case Class(id) => Some(id)
      case _ => None
    }

    /** `impl From<PrimitiveType> for ArrayComponentType`: signedness is dropped. */
    static function FromPrimitive(prim: Types.PrimitiveType): (r: ArrayComponentType)
      ensures r.IsPrimitive() && r.IntoClassId() == None
      ensures r == Byte <==> prim.Byte? || prim.UnsignedByte?
      ensures r == Short <==> prim.Short? || prim.UnsignedShort?
      ensures r == Int <==> prim.Int?
      ensures r == Long <==> prim.Long?
      ensures r == Float <==> prim.Float?
      ensures r == Double <==> prim.Double?
      ensures r == Char <==> prim.Char?
      ensures r == Boolean <==> prim.Boolean?
    {
      match prim
      case Byte | UnsignedByte => Byte
      case Short | UnsignedShort => Short
      case Int => Int
      case Long => Long
      case Float => Float
      case Double => Double
      case Char => Char
      case Boolean => Boolean
    }

    /**
      The field descriptor of this component type (section 4.3.2 of the Java
      Virtual Machine Specification), given the registry's name table: a
      `BaseType` letter for a primitive; for a class, the array name itself
      when the class is an array, `L<path joined by '/'>;` otherwise.
     */
    function DescriptorOf(names: map<ClassId, Name>): (r: Result<string, BadIdError>)
      requires WellFormedTable(names)
      ensures IsPrimitive() ==> r.Ok? && |r.value| == 1 && r.value[0] in "BCDFIJSZ"
      ensures this.Class? ==> (r.Err? <==> id !in names)
      ensures r.Err? ==> r.error == BadIdError(id)
      ensures this.Class? && r.Ok? ==> |r.value| >= 1 && (r.value[0] == 'L' || r.value[0] == '[')
    {
      match this
      case Byte => Ok("B")
      case Char => Ok("C")
      case Double => Ok("D")
      case Float => Ok("F")
      case Int => Ok("I")
      case Long => Ok("J")
      case Class(classId) =>
        if classId !in names then
          Err(BadIdError(classId))
        else
          var name := names[classId];
          if name.isArray then Ok(name.path[0])
          else Ok("L" + Join(name.path, '/') + ";")
      case Short => Ok("S")
      case Boolean => Ok("Z")
    }

    /** The descriptor string, resolving a class component through the registry. */
    method ToDescString(classNames: ClassNames) returns (r: Result<string, BadIdError>)
      requires classNames.Valid()
      ensures r == DescriptorOf(classNames.names)
    {
      match this {
        case Byte => r := Ok("B");
        case Char => r := Ok("C");
        case Double => r := Ok("D");
        case Float => r := Ok("F");
        case Int => r := Ok("I");
        case Long => r := Ok("J");
        case Class(classId) =>
          var lookup := classNames.NameFromGcid(classId);
          if lookup.Err? {
            r := Err(lookup.error);
          } else {
            var name := lookup.value;
            if name.isArray {
              r := Ok(name.path[0]);
            } else {
              r := Ok("L" + Join(name.path, '/') + ";");
            }
          }
        case Short => r := Ok("S");
        case Boolean => r := Ok("Z");
      }
    }
  }

  /** The eight primitive descriptor letters, independent of the registry. */
  lemma PrimitiveDescriptors(names: map<ClassId, Name>)
    requires WellFormedTable(names)
    ensures Byte.DescriptorOf(names) == Ok("B")
    ensures Char.DescriptorOf(names) == Ok("C")
    ensures Double.DescriptorOf(names) == Ok("D")
    ensures Float.DescriptorOf(names) == Ok("F")
    ensures Int.DescriptorOf(names) == Ok("I")
    ensures Long.DescriptorOf(names) == Ok("J")
    ensures Short.DescriptorOf(names) == Ok("S")
    ensures Boolean.DescriptorOf(names) == Ok("Z")
  {
  }

  /**
    The descriptor of each of the ten primitive kinds after conversion: the
    `BaseType` letter of section 4.3.2 of the Java Virtual Machine
    Specification, with unsigned byte and short sharing `B` and `S`.
   */
  lemma FromPrimitiveDescriptors(prim: Types.PrimitiveType, names: map<ClassId, Name>)
    requires WellFormedTable(names)
    ensures ArrayComponentType.FromPrimitive(prim).DescriptorOf(names) == Ok(
      match prim
      case Byte | UnsignedByte => "B"
      case Short | UnsignedShort => "S"
      case Int => "I"
      case Long => "J"
      case Float => "F"
      case Double => "D"
      case Char => "C"
      case Boolean => "Z")
  {
    PrimitiveDescriptors(names);
  }

  /** Signed and unsigned byte (and short) share one component type and one descriptor. */
  lemma FromPrimitiveCollapses(p: Types.PrimitiveType, q: Types.PrimitiveType)
    ensures ArrayComponentType.FromPrimitive(p) == ArrayComponentType.FromPrimitive(q) <==>
      || p == q
      || ((p.Byte? || p.UnsignedByte?) && (q.Byte? || q.UnsignedByte?))
      || ((p.Short? || p.UnsignedShort?) && (q.Short? || q.UnsignedShort?))
  {
  }

  /** Every primitive component type is the image of some primitive kind. */
  lemma FromPrimitiveOnto(t: ArrayComponentType)
    requires t.IsPrimitive()
    ensures exists p :: ArrayComponentType.FromPrimitive(p) == t
  {
    var p: Types.PrimitiveType := match t
      case Boolean => Types.Boolean
      case Char => Types.Char
      case Byte => Types.Byte
      case Short => Types.Short
      case Int => Types.Int
      case Long => Types.Long
      case Float => Types.Float
      case Double => Types.Double;
    assert ArrayComponentType.FromPrimitive(p) == t;
  }

  /** A class path with no array flag becomes an object-type descriptor. */
  lemma StringDescriptor(names: map<ClassId, Name>, id: ClassId)
    requires WellFormedTable(names)
    requires id in names && names[id] == Name(["java", "lang", "String"], false)
    ensures ArrayComponentType.Class(id).DescriptorOf(names) == Ok("Ljava/lang/String;")
  {
    var path := ["java", "lang", "String"];
    assert path[1..][1..] == ["String"];
    assert Join(path[1..], '/') == "lang/String";
    assert Join(path, '/') == "java/lang/String";
    assert "L" + "java/lang/String" + ";" == "Ljava/lang/String;";
  }

  /**
    For a class interned as `s`, the descriptor is `s` itself when `s` names an
    array class and `L` + `s` + `;` otherwise.
   */
  lemma DescriptorOfInterned(r: ClassNames, s: string)
    requires r.Valid() && s in r.ids
    ensures ArrayComponentType.Class(r.ids[s]).DescriptorOf(r.names) ==
      Ok(if IsArrayClass(s) then s else "L" + s + ";")
  {
    NameTextOfNameOf(s);
  }

  /**
    An object-type descriptor parses back: between its `L` and `;` lies the
    name's path, recovered by splitting at `/` when no segment contains one.
   */
  lemma ObjectDescriptorParsesBack(names: map<ClassId, Name>, id: ClassId)
    requires WellFormedTable(names)
    requires id in names && !names[id].isArray && |names[id].path| >= 1
    requires forall i :: 0 <= i < |names[id].path| ==> '/' !in names[id].path[i]
    ensures ArrayComponentType.Class(id).DescriptorOf(names).Ok?
    ensures var d := ArrayComponentType.Class(id).DescriptorOf(names).value;
      && |d| >= 2 && d[0] == 'L' && d[|d| - 1] == ';'
      && Split(d[1..|d| - 1], '/') == names[id].path
  {
    var path := names[id].path;
    var d := ArrayComponentType.Class(id).DescriptorOf(names).value;
    assert d == "L" + Join(path, '/') + ";";
    assert d[1..|d| - 1] == Join(path, '/');
    SplitJoin(path, '/');
  }

  /** Two classes known to a valid registry with the same descriptor are the same class. */
  lemma ClassDescriptorIdentifiesClass(r: ClassNames, x: ClassId, y: ClassId)
    requires r.Valid() && x in r.names && y in r.names
    requires ArrayComponentType.Class(x).DescriptorOf(r.names) == ArrayComponentType.Class(y).DescriptorOf(r.names)
    ensures x == y
  {
    var d := ArrayComponentType.Class(x).DescriptorOf(r.names).value;
    var s := NameText(r.names[x]);
    var t := NameText(r.names[y]);
    DescriptorOfInterned(r, s);
    DescriptorOfInterned(r, t);
    assert d[0] == (if IsArrayClass(s) then '[' else 'L');
    assert d[0] == (if IsArrayClass(t) then '[' else 'L');
    if !IsArrayClass(s) {
      assert s == d[1..|d| - 1] == t;
    }
    InternInjective(r, s, t);
  }

  /** Under a valid registry, a successful descriptor determines the component type. */
  lemma DescriptorIdentifiesComponent(r: ClassNames, a: ArrayComponentType, b: ArrayComponentType)
    requires r.Valid()
    requires a.DescriptorOf(r.names).Ok?
    requires a.DescriptorOf(r.names) == b.DescriptorOf(r.names)
    ensures a == b
  {
    assert '[' !in "BCDFIJSZ" && 'L' !in "BCDFIJSZ";
    if a.Class? && b.Class? {
      ClassDescriptorIdentifiesClass(r, a.id, b.id);
    }
  }
}
