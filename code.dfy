/**
 * `CangjieCode`: the keystrokes that type one character, as a sequence of
 * radicals, with its two text encodings, its order, and the in-place edits
 * reachable through `DerefMut` and `Extend`.
 */
module Code {
  import opened Wrappers
  import opened Alphabet

  /** A keystroke code; the `SmallVec` of the source is a plain sequence here. */
  type CangjieCode = seq<CangjieRadical>

  /** The text a byte string stands for, one `char::from(u8)` per byte (the right-hand side of the round trips). */
  function BytesText(s: seq<Byte>): string
  {
    seq(|s|, i requires 0 <= i < |s| => s[i] as char)
  }

  /**
   * `CangjieCode::from_codes`: decode every byte with `FromCode`;
   * `None` where the source panics on the first invalid byte.
   */
  function FromCodes(s: seq<Byte>): (r: Option<CangjieCode>)
    ensures r.Some? <==> forall i :: 0 <= i < |s| ==> IsCode(s[i])
    ensures r.Some? ==> |r.value| == |s|
    ensures r.Some? ==> forall i :: 0 <= i < |s| ==> Some(r.value[i]) == FromCode(s[i])
  {
    if s == [] then Some([])
    else
      match (FromCode(s[0]), FromCodes(s[1..]))
      case (Some(head), Some(tail)) => Some([head] + tail)
      case _ => None
  }

  /**
   * `CangjieCode::from_radicals`: decode every character with `FromRadical`;
   * `None` where the source panics on the first invalid glyph.
   */
  function FromRadicals(t: string): (r: Option<CangjieCode>)
    ensures r.Some? <==> forall i :: 0 <= i < |t| ==> IsGlyph(t[i])
    ensures r.Some? ==> |r.value| == |t|
    ensures r.Some? ==> forall i :: 0 <= i < |t| ==> Some(r.value[i]) == FromRadical(t[i])
  {
    if t == [] then Some([])
    else
      match (FromRadical(t[0]), FromRadicals(t[1..]))
      case (Some(head), Some(tail)) => Some([head] + tail)
      case _ => None
  }

  /** What `code.codes().to_string()` produces: every radical's code, in order. */
  function CodesText(c: CangjieCode): (t: string)
    ensures |t| == |c|
    ensures forall i :: 0 <= i < |c| ==> t[i] as int == ToCode(c[i]) as int
  {
    if c == [] then "" else [ToCode(c[0]) as char] + CodesText(c[1..])
  }

  /** What `code.radicals().to_string()` produces: every radical's glyph, in order. */
  function RadicalsText(c: CangjieCode): (t: string)
    ensures |t| == |c|
    ensures forall i :: 0 <= i < |c| ==> t[i] == ToRadical(c[i])
  {
    if c == [] then "" else [ToRadical(c[0])] + RadicalsText(c[1..])
  }

  /**
   * The derived `Ord::cmp` of `CangjieCode`: lexicographic over the radicals,
   * a proper prefix being the smaller. It agrees with the derived `Eq`:
   * `Equal` exactly for equal codes (the order itself is `CmpLessIff`).
   */
  function Cmp(a: CangjieCode, b: CangjieCode): (o: Ordering)
    ensures o == Equal <==> a == b
  {
    if a == [] then (if b == [] then Equal else Less)
    else if b == [] then Greater
    else
      assert a == [a[0]] + a[1..] && b == [b[0]] + b[1..];
      match CmpRadical(a[0], b[0])
      case Equal => Cmp(a[1..], b[1..])
      case other => other
  }

  /**
   * The lexicographic order written out: `a` is a proper prefix of `b`, or
   * the first position where they differ holds the smaller radical in `a`.
   */
  ghost predicate LexLess(a: CangjieCode, b: CangjieCode) {
    || (|a| < |b| && a == b[..|a|])
    || exists k :: 0 <= k < |a| && k < |b| && a[..k] == b[..k] && Ordinal(a[k]) < Ordinal(b[k])
  }

  // ---------------------------------------------------------------------
  // The two encodings
  // ---------------------------------------------------------------------

  /**
   * Code-text round trip, both ways: `from_codes(s)` is `c` exactly when
   * `c.codes()` renders as the text of `s`.
   */
  lemma FromCodesIffCodesText(s: seq<Byte>, c: CangjieCode)
    ensures FromCodes(s) == Some(c) <==> CodesText(c) == BytesText(s)
  {
    if CodesText(c) == BytesText(s) {
      forall i | 0 <= i < |s|
        ensures FromCode(s[i]) == Some(c[i])
      {
        assert CodesText(c)[i] == BytesText(s)[i];
        FromCodeToCode(c[i]);
      }
      assert FromCodes(s).value == c;
    }
  }

  /** Rendering a decoded byte string gives back its text (`"rtw"` for `b"rtw"`). */
  lemma CodesTextFromCodes(s: seq<Byte>)
    requires forall i :: 0 <= i < |s| ==> IsCode(s[i])
    ensures FromCodes(s).Some? && CodesText(FromCodes(s).value) == BytesText(s)
  {
  }

  /**
   * Glyph round trip, both ways: `from_radicals(t)` is `c` exactly when
   * `c.radicals()` renders as `t`.
   */
  lemma FromRadicalsIffRadicalsText(t: string, c: CangjieCode)
    ensures FromRadicals(t) == Some(c) <==> RadicalsText(c) == t
  {
    if RadicalsText(c) == t {
      forall i | 0 <= i < |t|
        ensures FromRadical(t[i]) == Some(c[i])
      {
        FromRadicalToRadical(c[i]);
      }
      assert FromRadicals(t).value == c;
    }
  }

  /** Rendering a decoded glyph string gives it back (`"口廿田"`). */
  lemma RadicalsTextFromRadicals(t: string)
    requires forall i :: 0 <= i < |t| ==> IsGlyph(t[i])
    ensures FromRadicals(t).Some? && RadicalsText(FromRadicals(t).value) == t
  {
  }

  /** Both parsers agree: a byte string and its glyph rendering decode to the same code. */
  lemma FromCodesFromRadicals(s: seq<Byte>)
    requires forall i :: 0 <= i < |s| ==> IsCode(s[i])
    ensures FromRadicals(RadicalsText(FromCodes(s).value)) == FromCodes(s)
  {
    FromRadicalsIffRadicalsText(RadicalsText(FromCodes(s).value), FromCodes(s).value);
  }

  /** Rendering as codes distributes over concatenation. */
  lemma CodesTextAppend(a: CangjieCode, b: CangjieCode)
    ensures CodesText(a + b) == CodesText(a) + CodesText(b)
  {
  }

  /** Rendering as glyphs distributes over concatenation. */
  lemma RadicalsTextAppend(a: CangjieCode, b: CangjieCode)
    ensures RadicalsText(a + b) == RadicalsText(a) + RadicalsText(b)
  {
    var u, v := RadicalsText(a + b), RadicalsText(a) + RadicalsText(b);
    forall i | 0 <= i < |u|
      ensures u[i] == v[i]
    {
      if i >= |a| {
        assert (a + b)[i] == b[i - |a|];
      }
    }
  }

  /** Parsing codes distributes over concatenation of valid byte strings. */
  lemma FromCodesAppend(s: seq<Byte>, u: seq<Byte>)
    requires FromCodes(s).Some? && FromCodes(u).Some?
    ensures FromCodes(s + u) == Some(FromCodes(s).value + FromCodes(u).value)
  {
    var c := FromCodes(s).value + FromCodes(u).value;
    forall i | 0 <= i < |s + u|
      ensures Some(c[i]) == FromCode((s + u)[i])
    {
      if i >= |s| {
        assert (s + u)[i] == u[i - |s|];
      }
    }
    assert FromCodes(s + u).value == c;
  }

  /** The documented example, code side: `b"rtw"` is `[R, T, W]`, which renders as `"rtw"`. */
  lemma MeowCodes()
    ensures FromCodes(['r' as Byte, 't' as Byte, 'w' as Byte]) == Some([R, T, W])
    ensures CodesText([R, T, W]) == "rtw"
  {
    var rtw := ['r' as Byte, 't' as Byte, 'w' as Byte];
    assert CodesText([R, T, W]) == "rtw" == BytesText(rtw);
    FromCodesIffCodesText(rtw, [R, T, W]);
  }

  /** The documented example, glyph side: `"口廿田"` is `[R, T, W]`, which renders back as `"口廿田"`. */
  lemma MeowRadicals()
    ensures FromRadicals("口廿田") == Some([R, T, W])
    ensures RadicalsText([R, T, W]) == "口廿田"
  {
    FromRadicalToRadical(R);
    FromRadicalToRadical(T);
    FromRadicalToRadical(W);
    assert RadicalsText([R, T, W]) == "口廿田";
    FromRadicalsIffRadicalsText("口廿田", [R, T, W]);
  }

  /** The one-radical code `[Z]` renders as the full-width `"Ｚ"`. */
  lemma ZRendering()
    ensures RadicalsText([Z]) == "Ｚ"
    ensures CodesText([Z]) == "z"
  {
  }

  /** `"重"` does not parse as a code, and neither does the byte string `b"a0"`. */
  lemma InvalidParses()
    ensures FromRadicals("重") == None
    ensures FromCodes(['a' as Byte, '0' as Byte]) == None
  {
  }

  // ---------------------------------------------------------------------
  // Order
  // ---------------------------------------------------------------------

  /** Swapping the operands flips `Less` and `Greater`. */
  lemma {:induction false} CmpAntisymmetric(a: CangjieCode, b: CangjieCode)
    ensures Cmp(a, b) == Less <==> Cmp(b, a) == Greater
  {
    if a != [] && b != [] {
      var o, o' := CmpRadical(a[0], b[0]), CmpRadical(b[0], a[0]);
      assert o == Less <==> o' == Greater;
      if o == Equal {
        CmpAntisymmetric(a[1..], b[1..]);
      }
    }
  }

  /** `Cmp` is transitive on `Less`. */
  lemma {:induction false} CmpTransitive(a: CangjieCode, b: CangjieCode, c: CangjieCode)
    requires Cmp(a, b) == Less && Cmp(b, c) == Less
    ensures Cmp(a, c) == Less
  {
    if a != [] && b != [] && c != [] && a[0] == b[0] && b[0] == c[0] {
      CmpTransitive(a[1..], b[1..], c[1..]);
    }
  }

  /** `Cmp` says `Less` exactly when `a` is lexicographically below `b`. */
  lemma {:induction false} CmpLessIff(a: CangjieCode, b: CangjieCode)
    ensures Cmp(a, b) == Less <==> LexLess(a, b)
  {
    if a == [] || b == [] {
      if b != [] {
        assert a == b[..0];
      }
    } else {
      var o := CmpRadical(a[0], b[0]);
      if o != Equal {
        assert a[..0] == b[..0];
        if o == Greater {
          NotLexLessAtHead(a, b);
        }
      } else {
        CmpLessIff(a[1..], b[1..]);
        LexLessTail(a, b);
      }
    }
  }

  /** When `b` starts below `a`, `a` is not lexicographically below `b`. */
  lemma NotLexLessAtHead(a: CangjieCode, b: CangjieCode)
    requires a != [] && b != [] && Ordinal(b[0]) < Ordinal(a[0])
    ensures !LexLess(a, b)
  {
  }

  /** With equal heads, `LexLess` is decided by the tails. */
  lemma LexLessTail(a: CangjieCode, b: CangjieCode)
    requires a != [] && b != [] && a[0] == b[0]
    ensures LexLess(a, b) <==> LexLess(a[1..], b[1..])
  {
    var a', b' := a[1..], b[1..];
    if LexLess(a', b') {
      if |a'| < |b'| && a' == b'[..|a'|] {
        assert a == [a[0]] + a' && b[..|a|] == [b[0]] + b'[..|a'|];
      } else {
        var k :| 0 <= k < |a'| && k < |b'| && a'[..k] == b'[..k] && Ordinal(a'[k]) < Ordinal(b'[k]);
        assert a[..k + 1] == [a[0]] + a'[..k];
        assert b[..k + 1] == [b[0]] + b'[..k];
      }
    }
    if LexLess(a, b) {
      if |a| < |b| && a == b[..|a|] {
        assert a' == b'[..|a'|];
      } else {
        var k :| 0 <= k < |a| && k < |b| && a[..k] == b[..k] && Ordinal(a[k]) < Ordinal(b[k]);
        assert k != 0;
        assert a'[..k - 1] == a[..k][1..];
        assert b'[..k - 1] == b[..k][1..];
      }
    }
  }

  /** A proper prefix is smaller. */
  lemma ProperPrefixLess(a: CangjieCode, rest: CangjieCode)
    requires rest != []
    ensures Cmp(a, a + rest) == Less
  {
    assert (a + rest)[..|a|] == a;
    CmpLessIff(a, a + rest);
  }

  /** After a common prefix, the first differing radical decides. */
  lemma FirstDifferenceDecides(p: CangjieCode, x: CangjieRadical, y: CangjieRadical, a: CangjieCode, b: CangjieCode)
    requires Ordinal(x) < Ordinal(y)
    ensures Cmp(p + [x] + a, p + [y] + b) == Less
  {
    var u, v := p + [x] + a, p + [y] + b;
    assert u[..|p|] == p == v[..|p|];
    assert u[|p|] == x && v[|p|] == y;
    CmpLessIff(u, v);
  }

  /** `from_codes(b"aa") < from_codes(b"ab") < from_codes(b"b")`. */
  lemma OrderExample()
    ensures FromCodes(['a' as Byte, 'a' as Byte]) == Some([A, A])
    ensures FromCodes(['a' as Byte, 'b' as Byte]) == Some([A, B])
    ensures FromCodes(['b' as Byte]) == Some([B])
    ensures Cmp(FromCodes(['a' as Byte, 'a' as Byte]).value, FromCodes(['a' as Byte, 'b' as Byte]).value) == Less
    ensures Cmp(FromCodes(['a' as Byte, 'b' as Byte]).value, FromCodes(['b' as Byte]).value) == Less
  {
    var aa, ab, b := ['a' as Byte, 'a' as Byte], ['a' as Byte, 'b' as Byte], ['b' as Byte];
    assert CodesText([A, A]) == BytesText(aa);
    assert CodesText([A, B]) == BytesText(ab);
    assert CodesText([B]) == BytesText(b);
    FromCodesIffCodesText(aa, [A, A]);
    FromCodesIffCodesText(ab, [A, B]);
    FromCodesIffCodesText(b, [B]);
  }

  // ---------------------------------------------------------------------
  // Rendering through a formatter (`Display for Codes` / `Radicals`)
  // ---------------------------------------------------------------------

  /** The text sink of a `fmt::Formatter`: what has been written so far. */
  class Formatter {
    var written: string

    constructor ()
      ensures written == ""
    {
      written := "";
    }

    /** `write!(f, "{}", ch)` for one character. */
    method WriteChar(ch: char)
      modifies this
      ensures written == old(written) + [ch]
    {
      written := written + [ch];
    }
  }

  /** `<Codes as Display>::fmt`: write every radical's code, in order. */
  method FmtCodes(c: CangjieCode, f: Formatter)
    modifies f
    ensures f.written == old(f.written) + CodesText(c)
  {
    for i := 0 to |c|
      invariant f.written == old(f.written) + CodesText(c[..i])
    {
      CodesTextAppend(c[..i], [c[i]]);
      assert c[..i + 1] == c[..i] + [c[i]];
      f.WriteChar(ToCode(c[i]) as char);
    }
    assert c[..|c|] == c;
  }

  /** `<Radicals as Display>::fmt`: write every radical's glyph, in order. */
  method FmtRadicals(c: CangjieCode, f: Formatter)
    modifies f
    ensures f.written == old(f.written) + RadicalsText(c)
  {
    for i := 0 to |c|
      invariant f.written == old(f.written) + RadicalsText(c[..i])
    {
      RadicalsTextAppend(c[..i], [c[i]]);
      assert c[..i + 1] == c[..i] + [c[i]];
      f.WriteChar(ToRadical(c[i]));
    }
    assert c[..|c|] == c;
  }

  // ---------------------------------------------------------------------
  // In-place edits (`DerefMut`, `Extend`)
  // ---------------------------------------------------------------------

  /** A `CangjieCode` held by `&mut`: its radical vector is updated in place. */
  class CodeBuffer {
    var radicals: CangjieCode

    /** `CangjieCode::default()`: no radicals yet. */
    constructor Empty()
      ensures radicals == []
    {
      radicals := [];
    }

    /** `CangjieCode::from(&[CangjieRadical])`. */
    constructor FromSlice(rs: CangjieCode)
      ensures radicals == rs
    {
      radicals := rs;
    }

    /** `code[i]` through `Deref`; the source panics when `i` is out of bounds. */
    method Get(i: nat) returns (r: CangjieRadical)
      requires i < |radicals|
      ensures r == radicals[i]
    {
      r := radicals[i];
    }

    /**
     * `code[i] = r` through `DerefMut`: only position `i` changes and the
     * length stays; the source panics when `i` is out of bounds.
     */
    method Set(i: nat, r: CangjieRadical)
      requires i < |radicals|
      modifies this
      ensures radicals == old(radicals)[i := r]
      ensures |radicals| == old(|radicals|) && radicals[i] == r
      ensures forall j :: 0 <= j < |radicals| && j != i ==> radicals[j] == old(radicals[j])
    {
      radicals := radicals[i := r];
    }

    /**
     * `code.extend(rs)`: the radicals are appended in order, the old code
     * stays a prefix, and a non-empty extension makes the code larger.
     */
    method Extend(rs: CangjieCode)
      modifies this
      ensures radicals == old(radicals) + rs
      ensures radicals[..|old(radicals)|] == old(radicals)
      ensures rs != [] ==> Cmp(old(radicals), radicals) == Less
      ensures CodesText(radicals) == CodesText(old(radicals)) + CodesText(rs)
    {
      if rs != [] {
        ProperPrefixLess(radicals, rs);
      }
      CodesTextAppend(radicals, rs);
      radicals := radicals + rs;
    }
  }
}
