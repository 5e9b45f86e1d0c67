/**
  The structurally parsed class file handed over by the class-file parser.
  Only the shape this layer reads is modelled: the constant pool is the
  sequence of its entries, addressed from 1 (index 0 names no entry, as in
  section 4.1 of the Java Virtual Machine Specification), and every entry is
  either a `CONSTANT_Class_info`, a `CONSTANT_Utf8_info` or some other kind
  this layer never looks into.
 */
module ClassFileParser {
  import opened Wrappers
  import opened Id

  datatype ConstantInfo =
    | ClassConstant(nameIndex: u16)
    | Utf8Constant(utf8String: string)
    | OtherConstant

  /** The entry kind a typed constant-pool index expects. */
  datatype ConstantKind = ClassKind | Utf8Kind

  function KindOf(c: ConstantInfo): Option<ConstantKind> {
    match c
    case ClassConstant(_) => Some(ClassKind)
    case Utf8Constant(_) => Some(Utf8Kind)
    case OtherConstant => None
  }

  /** Passed through uninterpreted. */
  datatype ClassAccessFlags = ClassAccessFlags(bits: u16)

  datatype ClassFileVersion = ClassFileVersion(minor: u16, major: u16)

  datatype MethodInfo = MethodInfo(accessFlags: u16, nameIndex: u16, descriptorIndex: u16)

  datatype ClassFile = ClassFile(
    version: ClassFileVersion,
    constPool: seq<ConstantInfo>,
    accessFlags: ClassAccessFlags,
    thisClass: u16,
    superClass: u16,
    interfaces: seq<u16>,
    methods: seq<MethodInfo>)
}
