/** The .NET scalar types the models share, as ranges of mathematical integers. */
module DotNet {
  /** A C# `int`. */
  type Int32 = x: int | -0x8000_0000 <= x < 0x8000_0000

  /** A C# `long`. */
  type Int64 = x: int | -0x8000_0000_0000_0000 <= x < 0x8000_0000_0000_0000

  /** A C# `ulong`. */
  type UInt64 = x: int | 0 <= x < 0x1_0000_0000_0000_0000

  /** A UTF-16 code unit, the element of a C# string. */
  type Char16 = x: int | 0 <= x < 0x1_0000

  /** A non-null C# string: its UTF-16 code units. */
  type Str = seq<Char16>
}
