/**
  Identity handles of the runtime (rhojvm-base/src/id.rs): opaque class and
  package identities, per-class method slots, and the composite method handles
  built from them. Nothing here checks that an identity was issued by a
  registry or that a slot exists: construction is "unchecked" by design.
 */
module Id {
  import opened Wrappers

  /** Rust's fixed-width unsigned integers. */
  newtype u8 = x: int | 0 <= x < 0x100
  newtype u16 = x: int | 0 <= x < 0x1_0000
  newtype u32 = x: int | 0 <= x < 0x1_0000_0000

  /** An opaque class identity; meaningful only within one `ClassNames` registry. */
  datatype ClassId = ClassId(raw: u32) {

    /** The trusted-value escape hatch the registry uses to mint identities. */
    static function NewUnchecked(id: u32): (c: ClassId)
      ensures c.Get() == id
    {
      ClassId(id)
    }

    function Get(): u32 {
      raw
    }

    /** Handle equality is equality of the underlying 32-bit values. */
    function Eq(other: ClassId): (r: bool)
      ensures r <==> this == other
      ensures r <==> Get() == other.Get()
    {
      raw == other.raw
    }
  }

  /** The identity of a raw parsed class file shares the value space of `ClassId`. */
  type ClassFileId = ClassId

  /** An opaque package identity, minted only inside the crate. */
  datatype PackageId = PackageId(raw: u32)

  /** An index into a class's method table; meaningless without its class. */
  type MethodIndex = u16

  /** A (class, method slot) pair, used as a compact map key. */
  datatype ExactMethodId = ExactMethodId(classId: ClassId, methodIndex: MethodIndex) {

    static function UncheckedCompose(classId: ClassId, methodIndex: MethodIndex): (e: ExactMethodId)
      ensures e.Decompose() == (classId, methodIndex)
    {
      ExactMethodId(classId, methodIndex)
    }

    function Decompose(): (ClassId, MethodIndex) {
      (classId, methodIndex)
    }
  }

  /** Decomposing and composing again gives back the same handle. */
  lemma ComposeDecomposed(e: ExactMethodId)
    ensures ExactMethodId.UncheckedCompose(e.Decompose().0, e.Decompose().1) == e
  {
  }

  /**
    A method handle: either an exact (class, slot) pair or the synthetic
    `clone` of array pseudo-classes, which has no class-file slot.
   */
  datatype MethodId = Exact(exact: ExactMethodId) | ArrayClone {

    static function UncheckedCompose(classId: ClassId, methodIndex: MethodIndex): (m: MethodId)
      ensures m.Decompose() == Some((classId, methodIndex))
      ensures m.IntoExact() == Some(ExactMethodId.UncheckedCompose(classId, methodIndex))
    {
      Exact(ExactMethodId.UncheckedCompose(classId, methodIndex))
    }

    /** `into_exact().map(ExactMethodId::decompose)` */
    function Decompose(): (r: Option<(ClassId, MethodIndex)>)
      ensures r.None? <==> this == ArrayClone
      ensures r.Some? ==> IntoExact() == Some(ExactMethodId.UncheckedCompose(r.value.0, r.value.1))
    {
      match IntoExact()
      case Some(e) => Some(e.Decompose())
      case None => None
    }

    function IntoExact(): (r: Option<ExactMethodId>)
      ensures r.None? <==> this == ArrayClone
    {
      match this
      case Exact(x) => Some(x)
      case ArrayClone => None
    }

    /** `impl From<ExactMethodId> for MethodId` */
    static function FromExact(e: ExactMethodId): (m: MethodId)
      ensures m.IntoExact() == Some(e)
      ensures m != ArrayClone
    {
      Exact(e)
    }
  }

  /** A method handle decomposes to a pair exactly when it is the composition of that pair. */
  lemma DecomposeIffComposed(m: MethodId, classId: ClassId, methodIndex: MethodIndex)
    ensures m.Decompose() == Some((classId, methodIndex)) <==> m == MethodId.UncheckedCompose(classId, methodIndex)
  {
  }

  /** `into_exact` undoes `From<ExactMethodId>`, and nothing else maps to an exact handle. */
  lemma IntoExactInverse(m: MethodId, e: ExactMethodId)
    ensures m.IntoExact() == Some(e) <==> m == MethodId.FromExact(e)
  {
  }

  /** The code unit `[` in ASCII (and so in UTF-8). */
  const OPEN_BRACKET: u8 := 0x5B

  /** A class name denotes an array class when it starts with `[`. */
  function IsArrayClass(first: string): (r: bool)
    ensures r <==> |first| > 0 && first[0] == '['
    ensures first == "" ==> !r
  {
    ['['] <= first
  }

  /** The same test on the UTF-8 bytes of a name. */
  function IsArrayClassBytes(first: seq<u8>): (r: bool)
    ensures r <==> |first| > 0 && first[0] == OPEN_BRACKET
  {
    [OPEN_BRACKET] <= first
  }

  /** UTF-8 encoding of one Unicode scalar value (section 3 of RFC 3629). */
  function Utf8EncodeChar(c: char): (b: seq<u8>)
    ensures 1 <= |b| <= 4
  {
    var n := c as int;
    if n < 0x80 then
      [n as u8]
    else if n < 0x800 then
      [(0xC0 + n / 0x40) as u8, (0x80 + n % 0x40) as u8]
    else if n < 0x1_0000 then
      [(0xE0 + n / 0x1000) as u8, (0x80 + n / 0x40 % 0x40) as u8, (0x80 + n % 0x40) as u8]
    else
      [(0xF0 + n / 0x4_0000) as u8, (0x80 + n / 0x1000 % 0x40) as u8,
       (0x80 + n / 0x40 % 0x40) as u8, (0x80 + n % 0x40) as u8]
  }

  /** The scalar value a well-formed 1- to 4-byte UTF-8 sequence stands for. */
  function Utf8DecodeChar(b: seq<u8>): int
    requires 1 <= |b| <= 4
  {
    if |b| == 1 then
      b[0] as int
    else if |b| == 2 then
      (b[0] as int - 0xC0) * 0x40 + (b[1] as int - 0x80)
    else if |b| == 3 then
      (b[0] as int - 0xE0) * 0x1000 + (b[1] as int - 0x80) * 0x40 + (b[2] as int - 0x80)
    else
      (b[0] as int - 0xF0) * 0x4_0000 + (b[1] as int - 0x80) * 0x1000
        + (b[2] as int - 0x80) * 0x40 + (b[3] as int - 0x80)
  }

  /**
    The encoder is UTF-8: the length follows the scalar's range, the lead byte
    announces that length, every continuation byte is `10xxxxxx`, and decoding
    gives back the scalar value.
   */
  lemma Utf8EncodeCharIsUtf8(c: char)
    ensures var b, n := Utf8EncodeChar(c), c as int;
      && |b| == (if n < 0x80 then 1 else if n < 0x800 then 2 else if n < 0x1_0000 then 3 else 4)
      && (|b| == 1 ==> b[0] < 0x80)
      && (|b| == 2 ==> 0xC2 <= b[0] <= 0xDF)
      && (|b| == 3 ==> 0xE0 <= b[0] <= 0xEF)
      && (|b| == 4 ==> 0xF0 <= b[0] <= 0xF4)
      && (forall k :: 1 <= k < |b| ==> 0x80 <= b[k] <= 0xBF)
      && Utf8DecodeChar(b) == n
  {
    var n := c as int;
    if n >= 0x1_0000 {
      assert n / 0x4_0000 * 0x4_0000 + n / 0x1000 % 0x40 * 0x1000 + n / 0x40 % 0x40 * 0x40 + n % 0x40 == n;
    } else if n >= 0x800 {
      assert n / 0x1000 * 0x1000 + n / 0x40 % 0x40 * 0x40 + n % 0x40 == n;
    }
  }

  /** The UTF-8 byte string of a Rust `&str`. */
  function Utf8Encode(s: string): (b: seq<u8>)
    ensures |s| <= |b| <= 4 * |s|
  {
    if s == [] then [] else Utf8EncodeChar(s[0]) + Utf8Encode(s[1..])
  }

  /** Only `[` itself encodes to a sequence whose lead byte is `[`. */
  lemma LeadByteIsBracket(c: char)
    ensures Utf8EncodeChar(c)[0] == OPEN_BRACKET <==> c == '['
  {
    var n := c as int;
    if n < 0x80 {
      assert Utf8EncodeChar(c)[0] == n as u8;
      assert '[' as int == 0x5B;
    } else if n < 0x800 {
      assert Utf8EncodeChar(c)[0] >= 0xC0;
    } else if n < 0x1_0000 {
      assert Utf8EncodeChar(c)[0] >= 0xE0;
    } else {
      assert Utf8EncodeChar(c)[0] >= 0xF0;
    }
  }

  /** `is_array_class_bytes` on the UTF-8 encoding of a name agrees with `is_array_class`. */
  lemma IsArrayClassBytesAgrees(s: string)
    ensures IsArrayClassBytes(Utf8Encode(s)) == IsArrayClass(s)
  {
    if s != [] {
      LeadByteIsBracket(s[0]);
      assert Utf8Encode(s)[0] == Utf8EncodeChar(s[0])[0];
    }
  }
}
