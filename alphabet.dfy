/**
 * The Cangjie radical alphabet: 26 radicals, each with a one-byte code
 * (`a`..`z`, as stored in libcangjie's database) and a display glyph.
 */
module Alphabet {
  import opened Wrappers

  /** An unsigned 8-bit integer (Rust's `u8`). */
  newtype Byte = b: int | 0 <= b < 256

  /** The 26 radicals, in declaration order; the derived `Ord` follows this order. */
  datatype CangjieRadical =
    | A  // 日
    | B  // 月
    | C  // 金
    | D  // 木
    | E  // 水
    | F  // 火
    | G  // 土
    | H  // 竹
    | I  // 戈
    | J  // 十
    | K  // 大
    | L  // 中
    | M  // 一
    | N  // 弓
    | O  // 人
    | P  // 心
    | Q  // 手
    | R  // 口
    | S  // 尸
    | T  // 廿
    | U  // 山
    | V  // 女
    | W  // 田
    | X  // 難
    | Y  // 卜
    | Z  // Ｚ (libcangjie's choice, not 重)

  /** Rust's `std::cmp::Ordering`. */
  datatype Ordering = Less | Equal | Greater

  /** The position of a radical in declaration order (the derived discriminant). */
  function Ordinal(r: CangjieRadical): (n: nat)
    ensures n < 26
  {
    match r
    case A => 0  case B => 1  case C => 2  case D => 3  case E => 4
    case F => 5  case G => 6  case H => 7  case I => 8  case J => 9
    case K => 10 case L => 11 case M => 12 case N => 13 case O => 14
    case P => 15 case Q => 16 case R => 17 case S => 18 case T => 19
    case U => 20 case V => 21 case W => 22 case X => 23 case Y => 24
    case Z => 25
  }

  /** The derived `Ord::cmp` on radicals: declaration order. */
  function CmpRadical(a: CangjieRadical, b: CangjieRadical): (o: Ordering)
    ensures o == Equal <==> a == b
    ensures o == Less <==> Ordinal(a) < Ordinal(b)
    ensures o == Greater <==> Ordinal(b) < Ordinal(a)
  {
    OrdinalInjective(a, b);
    if Ordinal(a) < Ordinal(b) then Less
    else if Ordinal(a) == Ordinal(b) then Equal
    else Greater
  }

  /** True of the bytes `a`..`z`, the domain of `FromCode`. */
  predicate IsCode(code: Byte) {
    'a' as Byte <= code <= 'z' as Byte
  }

  /** `CangjieRadical::to_code`: the radical's libcangjie code. */
  function ToCode(r: CangjieRadical): (code: Byte)
    ensures IsCode(code)
    ensures code as int == 'a' as int + Ordinal(r)
  {
    var ch :=
      match r
      case A => 'a' case B => 'b' case C => 'c' case D => 'd' case E => 'e'
      case F => 'f' case G => 'g' case H => 'h' case I => 'i' case J => 'j'
      case K => 'k' case L => 'l' case M => 'm' case N => 'n' case O => 'o'
      case P => 'p' case Q => 'q' case R => 'r' case S => 's' case T => 't'
      case U => 'u' case V => 'v' case W => 'w' case X => 'x' case Y => 'y'
      case Z => 'z';
    ch as Byte
  }

  /**
   * `CangjieRadical::from_code`; `None` where the source panics
   * ("Invalid Cangjie radical code").
   */
  function FromCode(code: Byte): (r: Option<CangjieRadical>)
    ensures r.Some? ==> ToCode(r.value) == code
    ensures r.Some? <==> IsCode(code)
  {
    match code as char
    case 'a' => Some(A) case 'b' => Some(B) case 'c' => Some(C)
    case 'd' => Some(D) case 'e' => Some(E) case 'f' => Some(F)
    case 'g' => Some(G) case 'h' => Some(H) case 'i' => Some(I)
    case 'j' => Some(J) case 'k' => Some(K) case 'l' => Some(L)
    case 'm' => Some(M) case 'n' => Some(N) case 'o' => Some(O)
    case 'p' => Some(P) case 'q' => Some(Q) case 'r' => Some(R)
    case 's' => Some(S) case 't' => Some(T) case 'u' => Some(U)
    case 'v' => Some(V) case 'w' => Some(W) case 'x' => Some(X)
    case 'y' => Some(Y) case 'z' => Some(Z)
    case _ => None
  }

  /** `CangjieRadical::to_radical`: the radical's display glyph. */
  function ToRadical(r: CangjieRadical): (glyph: char)
  {
    match r
    case A => '日' case B => '月' case C => '金' case D => '木' case E => '水'
    case F => '火' case G => '土' case H => '竹' case I => '戈' case J => '十'
    case K => '大' case L => '中' case M => '一' case N => '弓' case O => '人'
    case P => '心' case Q => '手' case R => '口' case S => '尸' case T => '廿'
    case U => '山' case V => '女' case W => '田' case X => '難' case Y => '卜'
    case Z => 'Ｚ'
  }

  /** True of the 26 display glyphs, the domain of `FromRadical`. */
  predicate IsGlyph(glyph: char) {
    exists r :: ToRadical(r) == glyph
  }

  /**
   * `CangjieRadical::from_radical`; `None` where the source panics
   * ("Invalid Cangjie radical").
   */
  function FromRadical(glyph: char): (r: Option<CangjieRadical>)
    ensures r.Some? ==> ToRadical(r.value) == glyph
    ensures r.Some? <==> IsGlyph(glyph)
  {
    match glyph
    case '日' => Some(A) case '月' => Some(B) case '金' => Some(C)
    case '木' => Some(D) case '水' => Some(E) case '火' => Some(F)
    case '土' => Some(G) case '竹' => Some(H) case '戈' => Some(I)
    case '十' => Some(J) case '大' => Some(K) case '中' => Some(L)
    case '一' => Some(M) case '弓' => Some(N) case '人' => Some(O)
    case '心' => Some(P) case '手' => Some(Q) case '口' => Some(R)
    case '尸' => Some(S) case '廿' => Some(T) case '山' => Some(U)
    case '女' => Some(V) case '田' => Some(W) case '難' => Some(X)
    case '卜' => Some(Y) case 'Ｚ' => Some(Z)
    case _ => None
  }

  /** Distinct radicals have distinct positions. */
  lemma OrdinalInjective(a: CangjieRadical, b: CangjieRadical)
    ensures Ordinal(a) == Ordinal(b) ==> a == b
  {
  }

  /** Decoding a radical's code gives the radical back. */
  lemma FromCodeToCode(r: CangjieRadical)
    ensures FromCode(ToCode(r)) == Some(r)
  {
  }

  /** Encoding a decoded code gives the code back. */
  lemma ToCodeFromCode(code: Byte)
    requires IsCode(code)
    ensures FromCode(code).Some? && ToCode(FromCode(code).value) == code
  {
  }

  /** Decoding a radical's glyph gives the radical back. */
  lemma FromRadicalToRadical(r: CangjieRadical)
    ensures FromRadical(ToRadical(r)) == Some(r)
  {
  }

  /** Encoding a decoded glyph gives the glyph back. */
  lemma ToRadicalFromRadical(glyph: char)
    requires IsGlyph(glyph)
    ensures FromRadical(glyph).Some? && ToRadical(FromRadical(glyph).value) == glyph
  {
  }

  /** The 26 codes are pairwise distinct. */
  lemma ToCodeInjective(a: CangjieRadical, b: CangjieRadical)
    ensures ToCode(a) == ToCode(b) ==> a == b
  {
  }

  /** The 26 glyphs are pairwise distinct. */
  lemma ToRadicalInjective(a: CangjieRadical, b: CangjieRadical)
    ensures ToRadical(a) == ToRadical(b) ==> a == b
  {
  }

  /** `to_code` is strictly monotone with respect to the radical order. */
  lemma ToCodeMonotone(a: CangjieRadical, b: CangjieRadical)
    ensures CmpRadical(a, b) == Less <==> ToCode(a) < ToCode(b)
  {
  }

  /** `Z` is displayed as the full-width `Ｚ`, and `重` is not a radical glyph. */
  lemma ZGlyph()
    ensures ToRadical(Z) == 'Ｚ'
    ensures FromRadical('Ｚ') == Some(Z)
    ensures FromRadical('重') == None
  {
  }

  /** Bytes outside `a`..`z` are rejected, for example `0` and `A`. */
  lemma InvalidCodes()
    ensures FromCode('0' as Byte) == None
    ensures FromCode('A' as Byte) == None
    ensures FromCode('a' as Byte) == Some(A)
  {
  }
}
