/** The names of arithmetic types as C11 section 6.7.2 composes them, against the table of the lift walk. */
module CTypeNames {
  import opened Wrappers
  import opened QuodTree
  import opened LiftCheck

  datatype Rank = Char | Short | Int | Long | LongLong

  /** Widths of the 64-bit Linux target. */
  function Bits(rank: Rank): nat {
    match rank
    case Char => 8
    case Short => 16
    case Int => 32
    case Long => 64
    case LongLong => 64
  }

  function IntOf(bits: nat, unsigned: bool): Option<Type> {
    match bits
    case 8 => Some(if unsigned then U8 else I8)
    case 16 => Some(if unsigned then U16 else I16)
    case 32 => Some(if unsigned then U32 else I32)
    case 64 => Some(if unsigned then U64 else I64)
    case _ => None
  }

  /** The rank in words; `int` may follow `short` and `long`. */
  function RankNames(rank: Rank): seq<string> {
    match rank
    case Char => ["char"]
    case Short => ["short", "short" + " int"]
    case Int => ["int"]
    case Long => ["long", "long" + " int"]
    case LongLong => ["long" + " long", "long" + " long" + " int"]
  }

  /** `signed` may be left out, except that `signed` and `unsigned` alone mean `int`. */
  predicate Names(name: string, rank: Rank, unsigned: bool) {
    || (exists i :: 0 <= i < |RankNames(rank)| && name == (if unsigned then "unsigned " else "signed ") + RankNames(rank)[i])
    || (!unsigned && name in RankNames(rank))
    || (rank.Int? && name == if unsigned then "unsigned" else "signed")
  }

  /** `uint8_t` and the like. */
  function FixedName(digits: string, unsigned: bool): string {
    (if unsigned then "uint" else "int") + digits + "_t"
  }

  predicate FixedWidth(name: string, bits: nat, unsigned: bool) {
    || (bits == 8 && name == FixedName("8", unsigned))
    || (bits == 16 && name == FixedName("16", unsigned))
    || (bits == 32 && name == FixedName("32", unsigned))
    || (bits == 64 && name == FixedName("64", unsigned))
  }

  /** Typedefs as wide as an address, and the types that are no integers. */
  predicate OtherName(name: string, t: Type) {
    || (name in ["size_t", "uintptr_t"] && t == U64)
    || (name in ["ssize_t", "ptrdiff_t", "intptr_t"] && t == I64)
    || (name == "float" && t == F32)
    || (name == "double" && t == F64)
    || (name == "void" && t == Void)
  }

  /** A name is in the table exactly as C composes it, with the width of its rank. */
  ghost predicate Means(name: string, t: Type) {
    || (exists rank, unsigned :: Names(name, rank, unsigned) && IntOf(Bits(rank), unsigned) == Some(t))
    || (exists bits, unsigned :: FixedWidth(name, bits, unsigned) && IntOf(bits, unsigned) == Some(t))
    || OtherName(name, t)
  }

  function CharSpellings(unsigned: bool): seq<string> {
    if unsigned then ["unsigned char"] else ["char", "signed char"]
  }

  lemma {:induction false} CharNames(name: string, unsigned: bool)
    ensures Names(name, Char, unsigned) <==> name in CharSpellings(unsigned)
  {
    var names := RankNames(Char);
    assert "signed " + names[0] == "signed char" && "unsigned " + names[0] == "unsigned char";
  }

  lemma {:induction false} UnsignedCharTable()
    ensures CTypeKind("unsigned char") == Some(U8)
  {}

  lemma {:induction false} SignedCharTable()
    ensures CTypeKind("signed char") == Some(I8)
  {}

  lemma {:induction false} PlainCharTable()
    ensures CTypeKind("char") == Some(I8)
  {
    var name := "char";
    assert name[0] == 'c';
    assert name != "long" && name != "void" && |name| == 4;
    assert |"int"| == 3 && name != "int";
    assert name in CTypeKinds();
  }

  lemma {:induction false} CharInTable(name: string, unsigned: bool)
    requires name in CharSpellings(unsigned)
    ensures CTypeKind(name) == IntOf(8, unsigned)
  {
    UnsignedCharTable();
    SignedCharTable();
    PlainCharTable();
  }

  function ShortSpellings(unsigned: bool): seq<string> {
    if unsigned then ["unsigned short", "unsigned short int"] else ["short", "short int", "signed short", "signed short int"]
  }

  lemma {:induction false} ShortNames(name: string, unsigned: bool)
    ensures Names(name, Short, unsigned) <==> name in ShortSpellings(unsigned)
  {
    var names := RankNames(Short);
    assert names[1] == "short int";
    assert "signed " + names[0] == "signed short" && "unsigned " + names[0] == "unsigned short";
    assert "signed " + names[1] == "signed short int" && "unsigned " + names[1] == "unsigned short int";
  }

  lemma {:induction false} UnsignedShortTable()
    ensures CTypeKind("unsigned short") == Some(U16)
    ensures CTypeKind("unsigned short int") == Some(U16)
  {}

  lemma {:induction false} SignedShortTable()
    ensures CTypeKind("signed short") == Some(I16)
    ensures CTypeKind("signed short int") == Some(I16)
  {}

  lemma {:induction false} PlainShortTable()
    ensures CTypeKind("short") == Some(I16)
    ensures CTypeKind("short int") == Some(I16)
  {}

  lemma {:induction false} ShortInTable(name: string, unsigned: bool)
    requires name in ShortSpellings(unsigned)
    ensures CTypeKind(name) == IntOf(16, unsigned)
  {
    UnsignedShortTable();
    SignedShortTable();
    PlainShortTable();
  }

  function IntSpellings(unsigned: bool): seq<string> {
    if unsigned then ["unsigned int", "unsigned"] else ["int", "signed int", "signed"]
  }

  lemma {:induction false} IntNames(name: string, unsigned: bool)
    ensures Names(name, Int, unsigned) <==> name in IntSpellings(unsigned)
  {
    var names := RankNames(Int);
    assert "signed " + names[0] == "signed int" && "unsigned " + names[0] == "unsigned int";
  }

  lemma {:induction false} UnsignedIntTable()
    ensures CTypeKind("unsigned int") == Some(U32)
    ensures CTypeKind("unsigned") == Some(U32)
  {}

  lemma {:induction false} SignedIntTable()
    ensures CTypeKind("signed int") == Some(I32)
    ensures CTypeKind("signed") == Some(I32)
  {}

  lemma {:induction false} PlainIntTable()
    ensures CTypeKind("int") == Some(I32)
  {}

  lemma {:induction false} IntInTable(name: string, unsigned: bool)
    requires name in IntSpellings(unsigned)
    ensures CTypeKind(name) == IntOf(32, unsigned)
  {
    UnsignedIntTable();
    SignedIntTable();
    PlainIntTable();
  }

  function LongSpellings(unsigned: bool): seq<string> {
    if unsigned then ["unsigned long", "unsigned long int"] else ["long", "long int", "signed long", "signed long int"]
  }

  lemma {:induction false} LongNames(name: string, unsigned: bool)
    ensures Names(name, Long, unsigned) <==> name in LongSpellings(unsigned)
  {
    var names := RankNames(Long);
    assert names[1] == "long int";
    assert "signed " + names[0] == "signed long" && "unsigned " + names[0] == "unsigned long";
    assert "signed " + names[1] == "signed long int" && "unsigned " + names[1] == "unsigned long int";
  }

  lemma {:induction false} UnsignedLongTable()
    ensures CTypeKind("unsigned long") == Some(U64)
    ensures CTypeKind("unsigned long int") == Some(U64)
  {}

  lemma {:induction false} SignedLongTable()
    ensures CTypeKind("signed long") == Some(I64)
    ensures CTypeKind("signed long int") == Some(I64)
  {}

  lemma {:induction false} PlainLongTable()
    ensures CTypeKind("long") == Some(I64)
    ensures CTypeKind("long int") == Some(I64)
  {}

  lemma {:induction false} LongInTable(name: string, unsigned: bool)
    requires name in LongSpellings(unsigned)
    ensures CTypeKind(name) == IntOf(64, unsigned)
  {
    UnsignedLongTable();
    SignedLongTable();
    PlainLongTable();
  }

  function LongLongSpellings(unsigned: bool): seq<string> {
    if unsigned then ["unsigned long long", "unsigned long long int"] else ["long long", "long long int", "signed long long", "signed long long int"]
  }

  lemma {:induction false} LongLongNames(name: string, unsigned: bool)
    ensures Names(name, LongLong, unsigned) <==> name in LongLongSpellings(unsigned)
  {
    var names := RankNames(LongLong);
    assert names[0] == "long long";
    assert names[1] == "long long int";
    assert "signed " + names[0] == "signed long long" && "unsigned " + names[0] == "unsigned long long";
    assert "signed " + names[1] == "signed long long int" && "unsigned " + names[1] == "unsigned long long int";
  }

  lemma {:induction false} UnsignedLongLongTable()
    ensures CTypeKind("unsigned long long") == Some(U64)
    ensures CTypeKind("unsigned long long int") == Some(U64)
  {}

  lemma {:induction false} SignedLongLongTable()
    ensures CTypeKind("signed long long") == Some(I64)
    ensures CTypeKind("signed long long int") == Some(I64)
  {}

  lemma {:induction false} PlainLongLongTable()
    ensures CTypeKind("long long") == Some(I64)
    ensures CTypeKind("long long int") == Some(I64)
  {}

  lemma {:induction false} LongLongInTable(name: string, unsigned: bool)
    requires name in LongLongSpellings(unsigned)
    ensures CTypeKind(name) == IntOf(64, unsigned)
  {
    UnsignedLongLongTable();
    SignedLongLongTable();
    PlainLongLongTable();
  }

  lemma {:induction false} FixedNames(name: string, bits: nat, unsigned: bool)
    requires FixedWidth(name, bits, unsigned)
    ensures CTypeKind(name) == IntOf(bits, unsigned)
  {
    assert "int" + "8" + "_t" == "int8_t" && CTypeKind("int8_t") == Some(I8);
    assert "uint" + "8" + "_t" == "uint8_t" && CTypeKind("uint8_t") == Some(U8);
    assert "int" + "16" + "_t" == "int16_t" && CTypeKind("int16_t") == Some(I16);
    assert "uint" + "16" + "_t" == "uint16_t" && CTypeKind("uint16_t") == Some(U16);
    assert "int" + "32" + "_t" == "int32_t" && CTypeKind("int32_t") == Some(I32);
    assert "uint" + "32" + "_t" == "uint32_t" && CTypeKind("uint32_t") == Some(U32);
    assert "int" + "64" + "_t" == "int64_t" && CTypeKind("int64_t") == Some(I64);
    assert "uint" + "64" + "_t" == "uint64_t" && CTypeKind("uint64_t") == Some(U64);
  }

  lemma {:induction false} OtherNames(name: string, t: Type)
    requires OtherName(name, t)
    ensures CTypeKind(name) == Some(t)
  {
    assert CTypeKind("size_t") == Some(U64);
    assert CTypeKind("uintptr_t") == Some(U64);
    assert CTypeKind("ssize_t") == Some(I64);
    assert CTypeKind("ptrdiff_t") == Some(I64);
    assert CTypeKind("intptr_t") == Some(I64);
    assert CTypeKind("float") == Some(F32);
    assert CTypeKind("double") == Some(F64);
    assert CTypeKind("void") == Some(Void);
  }

  /** The table knows each name that C composes, with the width of its rank. */
  lemma {:induction false} NamesAreKnown(name: string, t: Type)
    requires Means(name, t)
    ensures CTypeKind(name) == Some(t)
  {
    if rank, unsigned :| Names(name, rank, unsigned) && IntOf(Bits(rank), unsigned) == Some(t) {
      match rank {
        case Char =>
          CharNames(name, unsigned);
          CharInTable(name, unsigned);
        case Short =>
          ShortNames(name, unsigned);
          ShortInTable(name, unsigned);
        case Int =>
          IntNames(name, unsigned);
          IntInTable(name, unsigned);
        case Long =>
          LongNames(name, unsigned);
          LongInTable(name, unsigned);
        case LongLong =>
          LongLongNames(name, unsigned);
          LongLongInTable(name, unsigned);
      }
    } else if bits, unsigned :| FixedWidth(name, bits, unsigned) && IntOf(bits, unsigned) == Some(t) {
      FixedNames(name, bits, unsigned);
    } else {
      OtherNames(name, t);
    }
  }

  /** A key of the table is one of the names that C composes. */
  lemma {:induction false} KeysAreNames(name: string)
    requires name in CTypeKinds()
    ensures exists t :: Means(name, t)
  {
    if unsigned :| name in CharSpellings(unsigned) {
      CharNames(name, unsigned);
      MeansInt(name, Char, unsigned);
    } else if unsigned :| name in ShortSpellings(unsigned) {
      ShortNames(name, unsigned);
      MeansInt(name, Short, unsigned);
    } else if unsigned :| name in IntSpellings(unsigned) {
      IntNames(name, unsigned);
      MeansInt(name, Int, unsigned);
    } else if unsigned :| name in LongSpellings(unsigned) {
      LongNames(name, unsigned);
      MeansInt(name, Long, unsigned);
    } else if unsigned :| name in LongLongSpellings(unsigned) {
      LongLongNames(name, unsigned);
      MeansInt(name, LongLong, unsigned);
    } else {
      RestIsFixedOrOther(name);
    }
  }

  lemma {:induction false} MeansInt(name: string, rank: Rank, unsigned: bool)
    requires Names(name, rank, unsigned)
    ensures exists t :: Means(name, t)
  {
    assert Means(name, IntOf(Bits(rank), unsigned).value);
  }

  predicate IsFixed(name: string, unsigned: bool) {
    name in if unsigned then ["uint8_t", "uint16_t", "uint32_t", "uint64_t"] else ["int8_t", "int16_t", "int32_t", "int64_t"]
  }

  predicate IsOther(name: string) {
    name in ["size_t", "uintptr_t", "ssize_t", "ptrdiff_t", "intptr_t", "float", "double", "void"]
  }

  predicate Listed(name: string, unsigned: bool) {
    || name in CharSpellings(unsigned) || name in ShortSpellings(unsigned) || name in IntSpellings(unsigned)
    || name in LongSpellings(unsigned) || name in LongLongSpellings(unsigned)
  }

  lemma {:induction false} KeysAreListed(name: string)
    requires name in CTypeKinds()
    ensures Listed(name, false) || Listed(name, true) || IsFixed(name, false) || IsFixed(name, true) || IsOther(name)
  {}

  lemma {:induction false} RestIsFixedOrOther(name: string)
    requires name in CTypeKinds() && !Listed(name, false) && !Listed(name, true)
    ensures exists t :: Means(name, t)
  {
    KeysAreListed(name);
    if unsigned :| IsFixed(name, unsigned) {
      FixedIsWide(name, unsigned);
      var bits :| FixedWidth(name, bits, unsigned) && bits in {8, 16, 32, 64};
      assert Means(name, IntOf(bits, unsigned).value);
    } else {
      var t :| OtherName(name, t);
      assert Means(name, t);
    }
  }

  lemma {:induction false} FixedIsWide(name: string, unsigned: bool)
    requires IsFixed(name, unsigned)
    ensures exists bits :: FixedWidth(name, bits, unsigned) && bits in {8, 16, 32, 64}
  {
    assert FixedName("8", unsigned) == if unsigned then "uint8_t" else "int8_t";
    assert FixedName("16", unsigned) == if unsigned then "uint16_t" else "int16_t";
    assert FixedName("32", unsigned) == if unsigned then "uint32_t" else "int32_t";
    assert FixedName("64", unsigned) == if unsigned then "uint64_t" else "int64_t";
    assert FixedWidth(name, 8, unsigned) || FixedWidth(name, 16, unsigned) || FixedWidth(name, 32, unsigned)
        || FixedWidth(name, 64, unsigned);
  }

  /** The table knows exactly the names that C composes, each with the width of its rank. */
  lemma {:induction false} TypeTableExactly(name: string, t: Type)
    ensures CTypeKind(name) == Some(t) <==> Means(name, t)
  {
    if Means(name, t) {
      NamesAreKnown(name, t);
    }
    if CTypeKind(name) == Some(t) {
      KeysAreNames(name);
      var u :| Means(name, u);
      NamesAreKnown(name, u);
    }
  }
}
