/** The runtime's primitive kinds, as the code-types layer enumerates them. */
module Types {

  datatype PrimitiveType =
    | Byte
    | UnsignedByte
    | Short
    | UnsignedShort
    | Int
    | Long
    | Float
    | Double
    | Char
    | Boolean
}
