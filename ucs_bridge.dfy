/**
 * The UCS4 <-> internal character bridge of the conversion extension
 * (charconv.c, "UCS4 <-> internal character routine").  In a UTF-8 build
 * characters are their own code points.  Otherwise two shared conversion
 * contexts, opened once at initialisation, carry a character through jconv
 * to UTF-8 and back; chartoucs then unpacks the UTF-8 bytes itself, in the
 * original 1-to-6-byte form of section 2 of RFC 2279.
 */
module UcsBridge {
  import opened Wrappers
  import opened ConvEngine

  /** SCM_CHAR_INVALID, ((ScmChar)-1) in gauche/char.h (not part of this model). */
  const CHAR_INVALID: int := -1

  /** The internal character encoding the runtime was built with
      (GAUCHE_CHAR_ENCODING_*); `NoMultibyte` is the remaining case. */
  datatype CharEncoding = Utf8 | EucJp | Sjis | NoMultibyte

  /** The two shared contexts: UTF-8 to the internal encoding, and back. */
  datatype UcsConv = UcsConv(ucs2char: Option<Engine>, char2ucs: Option<Engine>)

  /** Scm_Init_libcharconv's setup of the shared contexts: none in a UTF-8
      build, none without a multibyte encoding, otherwise one context each
      way between UTF-8 and the internal encoding. */
  function InitUcsConv(enc: CharEncoding, open: Opener): (u: UcsConv)
    ensures enc == Utf8 || enc == NoMultibyte ==> u == UcsConv(None, None)
    ensures enc == EucJp ==> u == UcsConv(open("EUCJP", "UTF-8"), open("UTF-8", "EUCJP"))
    ensures enc == Sjis ==> u == UcsConv(open("SJIS", "UTF-8"), open("UTF-8", "SJIS"))
    ensures OpensWellFormed(open) ==> UcsConvWellFormed(u)
  {
    match enc
    case EucJp => UcsConv(open("EUCJP", "UTF-8"), open("UTF-8", "EUCJP"))
    case Sjis => UcsConv(open("SJIS", "UTF-8"), open("UTF-8", "SJIS"))
    case _ => UcsConv(None, None)
  }

  ghost predicate UcsConvWellFormed(u: UcsConv) {
    && (u.ucs2char.Some? ==> WellFormed(u.ucs2char.value))
    && (u.char2ucs.Some? ==> WellFormed(u.char2ucs.value))
  }

  /*------------------------------------------------------------------
   * UTF-8 unpacking.  On bytes the masks `& 0x1f`, `& 0x3f` and so on are
   * remainders, and the shifts `<< 6k` are multiplications by 64^k.
   */

  /** b & 0x3f: the six payload bits of a continuation byte. */
  function Low6(b: byte): int { b as int % 0x40 }

  /** chartoucs's unpacking of jconv's output buffer (six bytes), chosen by
      the range the lead byte falls in.  A lead byte of 0xfe or 0xff is no
      lead byte at all and gives -1. */
  function DecodeUtf8(ucp: seq<byte>): (r: int)
    requires |ucp| == 6
    ensures r == -1 <==> ucp[0] >= 0xfe
    ensures ucp[0] < 0x80 ==> r == ucp[0] as int
    ensures 0x80 <= ucp[0] < 0xe0 ==> 0 <= r < 0x800
    ensures 0xe0 <= ucp[0] < 0xf0 ==> 0 <= r < 0x1_0000
    ensures 0xf0 <= ucp[0] < 0xf8 ==> 0 <= r < 0x20_0000
    ensures 0xf8 <= ucp[0] < 0xfc ==> 0 <= r < 0x400_0000
    ensures 0xfc <= ucp[0] < 0xfe ==> 0 <= r < 0x8000_0000
  {
    var b0 := ucp[0] as int;
    if b0 < 0x80 then b0
    else if b0 < 0xe0 then
      (b0 % 0x20) * 0x40 + Low6(ucp[1])
    else if b0 < 0xf0 then
      (b0 % 0x10) * 0x1000 + Low6(ucp[1]) * 0x40 + Low6(ucp[2])
    else if b0 < 0xf8 then
      (b0 % 0x8) * 0x4_0000 + Low6(ucp[1]) * 0x1000 + Low6(ucp[2]) * 0x40 + Low6(ucp[3])
    else if b0 < 0xfc then
      (b0 % 0x4) * 0x100_0000 + Low6(ucp[1]) * 0x4_0000 + Low6(ucp[2]) * 0x1000
      + Low6(ucp[3]) * 0x40 + Low6(ucp[4])
    else if b0 < 0xfe then
      (b0 % 0x2) * 0x4000_0000 + Low6(ucp[1]) * 0x100_0000 + Low6(ucp[2]) * 0x4_0000
      + Low6(ucp[3]) * 0x1000 + Low6(ucp[4]) * 0x40 + Low6(ucp[5])
    else -1
  }

  /** The number of bytes section 2 of RFC 2279 uses for a 31-bit value. */
  function EncodedLength(v: int): (n: nat)
    requires 0 <= v < 0x8000_0000
    ensures 1 <= n <= 6
  {
    if v < 0x80 then 1
    else if v < 0x800 then 2
    else if v < 0x1_0000 then 3
    else if v < 0x20_0000 then 4
    else if v < 0x400_0000 then 5
    else 6
  }

  /** A continuation byte carrying the low six bits of x. */
  function Cont(x: nat): byte
  {
    (0x80 + x % 0x40) as byte
  }

  /** The reference encoder of section 2 of RFC 2279: the lead byte marks the
      length, each continuation byte carries six bits, most significant
      first (v1 .. v5 are v shifted right by 6, 12, .. 30 bits). */
  function EncodeUtf8(v: int): (bytes: seq<byte>)
    requires 0 <= v < 0x8000_0000
    ensures |bytes| == EncodedLength(v)
  {
    var v1 := v / 0x40;
    var v2 := v1 / 0x40;
    var v3 := v2 / 0x40;
    var v4 := v3 / 0x40;
    var v5 := v4 / 0x40;
    if v < 0x80 then [v as byte]
    else if v < 0x800 then [(0xc0 + v1) as byte, Cont(v)]
    else if v < 0x1_0000 then [(0xe0 + v2) as byte, Cont(v1), Cont(v)]
    else if v < 0x20_0000 then [(0xf0 + v3) as byte, Cont(v2), Cont(v1), Cont(v)]
    else if v < 0x400_0000 then [(0xf8 + v4) as byte, Cont(v3), Cont(v2), Cont(v1), Cont(v)]
    else [(0xfc + v5) as byte, Cont(v4), Cont(v3), Cont(v2), Cont(v1), Cont(v)]
  }

  /** The lead byte of an encoding lies in the range chartoucs maps to that
      many bytes, and every other byte is a continuation byte. */
  lemma EncodeUtf8LeadByte(v: int)
    requires 0 <= v < 0x8000_0000
    ensures var b := EncodeUtf8(v);
            && (|b| == 1 <==> b[0] < 0x80)
            && (|b| == 2 <==> 0xc0 <= b[0] < 0xe0)
            && (|b| == 3 <==> 0xe0 <= b[0] < 0xf0)
            && (|b| == 4 <==> 0xf0 <= b[0] < 0xf8)
            && (|b| == 5 <==> 0xf8 <= b[0] < 0xfc)
            && (|b| == 6 <==> 0xfc <= b[0] < 0xfe)
            && (forall i :: 1 <= i < |b| ==> 0x80 <= b[i] < 0xc0)
  {
  }

  /** Round trip: chartoucs's unpacking recovers every 31-bit value from its
      RFC 2279 encoding, whatever follows the encoding in the buffer. */
  lemma DecodeEncodeUtf8(v: int, rest: seq<byte>)
    requires 0 <= v < 0x8000_0000 && EncodedLength(v) + |rest| == 6
    ensures DecodeUtf8(EncodeUtf8(v) + rest) == v
  {
    var b := EncodeUtf8(v) + rest;
    if v < 0x800 {
    } else if v < 0x1_0000 {
      RoundTrip3(v, b);
    } else if v < 0x20_0000 {
      RoundTrip4(v, b);
    } else if v < 0x400_0000 {
      RoundTrip5(v, b);
    } else {
      RoundTrip6(v, b);
    }
  }

  lemma RoundTrip3(v: int, b: seq<byte>)
    requires 0x800 <= v < 0x1_0000 && |b| == 6 && b[..3] == EncodeUtf8(v)
    ensures DecodeUtf8(b) == v
  {
    var v1 := v / 0x40;
    assert b[0] == EncodeUtf8(v)[0] && b[1] == EncodeUtf8(v)[1] && b[2] == EncodeUtf8(v)[2];
    assert Low6(b[1]) == v1 % 0x40;
    assert Low6(b[2]) == v % 0x40;
  }

  lemma RoundTrip4(v: int, b: seq<byte>)
    requires 0x1_0000 <= v < 0x20_0000 && |b| == 6 && b[..4] == EncodeUtf8(v)
    ensures DecodeUtf8(b) == v
  {
    var v1 := v / 0x40;
    var v2 := v1 / 0x40;
    assert b[0] == EncodeUtf8(v)[0] && b[1] == EncodeUtf8(v)[1];
    assert b[2] == EncodeUtf8(v)[2] && b[3] == EncodeUtf8(v)[3];
    assert Low6(b[1]) == v2 % 0x40;
    assert Low6(b[2]) == v1 % 0x40;
    assert Low6(b[3]) == v % 0x40;
  }

  lemma RoundTrip5(v: int, b: seq<byte>)
    requires 0x20_0000 <= v < 0x400_0000 && |b| == 6 && b[..5] == EncodeUtf8(v)
    ensures DecodeUtf8(b) == v
  {
    var v1 := v / 0x40;
    var v2 := v1 / 0x40;
    var v3 := v2 / 0x40;
    assert b[0] == EncodeUtf8(v)[0] && b[1] == EncodeUtf8(v)[1] && b[2] == EncodeUtf8(v)[2];
    assert b[3] == EncodeUtf8(v)[3] && b[4] == EncodeUtf8(v)[4];
    assert Low6(b[1]) == v3 % 0x40;
    assert Low6(b[2]) == v2 % 0x40;
    assert Low6(b[3]) == v1 % 0x40;
    assert Low6(b[4]) == v % 0x40;
  }

  lemma RoundTrip6(v: int, b: seq<byte>)
    requires 0x400_0000 <= v < 0x8000_0000 && |b| == 6 && b == EncodeUtf8(v)
    ensures DecodeUtf8(b) == v
  {
    var v1 := v / 0x40;
    var v2 := v1 / 0x40;
    var v3 := v2 / 0x40;
    var v4 := v3 / 0x40;
    assert Low6(b[1]) == v4 % 0x40;
    assert Low6(b[2]) == v3 % 0x40;
    assert Low6(b[3]) == v2 % 0x40;
    assert Low6(b[4]) == v1 % 0x40;
    assert Low6(b[5]) == v % 0x40;
  }

  /*------------------------------------------------------------------
   * The two hooks.
   */

  /** The six-byte output buffer after jconv wrote `bytes` to its front; the
      bytes after them are never read for a well-formed encoding and are
      taken as zero here. */
  function Pad6(bytes: seq<byte>): (r: seq<byte>)
    requires |bytes| <= 6
    ensures |r| == 6 && r[..|bytes|] == bytes
  {
    bytes + seq(6 - |bytes|, _ => 0 as byte)
  }

  /** A hook's answer, or the error chartoucs and ucstochar raise when jconv
      reports that the six-byte buffers were too small or the input cut short. */
  datatype HookResult = HookValue(value: int) | ImplementationError

  /** chartoucs: a character's UCS4 code point, -1 when there is none.
      `charPut` stands for SCM_CHAR_PUT, the character's bytes in the
      internal encoding. */
  function CharToUcs(enc: CharEncoding, u: UcsConv, ch: int, charPut: int -> seq<byte>): (r: HookResult)
    requires UcsConvWellFormed(u)
    ensures ch == CHAR_INVALID ==> r == HookValue(-1)
    ensures enc == Utf8 && ch != CHAR_INVALID ==> r == HookValue(ch)
    ensures enc != Utf8 && u.char2ucs.None? ==> r == HookValue(-1)
    ensures enc != Utf8 && ch != CHAR_INVALID && u.char2ucs.Some? ==>
              var st := u.char2ucs.value.convert(InitialShift, charPut(ch), 6);
              && (r == ImplementationError <==> st.outcome == InputNotEnough || st.outcome == OutputNotEnough)
              && (st.outcome == IllegalSequence ==> r == HookValue(-1))
              && (st.outcome == Converted ==> r == HookValue(DecodeUtf8(Pad6(st.produced))))
    // Outside a UTF-8 build every code point is -1 or a 31-bit value.
    ensures enc != Utf8 && r.HookValue? ==> r.value == -1 || 0 <= r.value < 0x8000_0000
  {
    if ch == CHAR_INVALID then HookValue(-1)
    else if enc == Utf8 then HookValue(ch)
    else if u.char2ucs.None? then HookValue(-1)
    else
      var st := u.char2ucs.value.convert(InitialShift, charPut(ch), 6);
      if st.outcome == InputNotEnough || st.outcome == OutputNotEnough then ImplementationError
      else if st.outcome == IllegalSequence then HookValue(-1)
      else HookValue(DecodeUtf8(Pad6(st.produced)))
  }

  /** When the context turns a character into the UTF-8 encoding of a
      code point, chartoucs answers that code point. */
  lemma CharToUcsDecodesEncoding(enc: CharEncoding, u: UcsConv, ch: int,
                                 charPut: int -> seq<byte>, v: int)
    requires UcsConvWellFormed(u) && enc != Utf8 && ch != CHAR_INVALID && u.char2ucs.Some?
    requires 0 <= v < 0x8000_0000
    requires var st := u.char2ucs.value.convert(InitialShift, charPut(ch), 6);
             st.outcome == Converted && st.produced == EncodeUtf8(v)
    ensures CharToUcs(enc, u, ch, charPut) == HookValue(v)
  {
    var st := u.char2ucs.value.convert(InitialShift, charPut(ch), 6);
    var rest := seq(6 - |st.produced|, _ => 0 as byte);
    assert Pad6(st.produced) == EncodeUtf8(v) + rest;
    DecodeEncodeUtf8(v, rest);
  }

  /** ucstochar: the character for a UCS4 code point.  `toUtf8` stands for
      jconv_ucs4_to_utf8 and `charGet` for SCM_CHAR_GET. */
  function UcsToChar(enc: CharEncoding, u: UcsConv, ucs4: int,
                     toUtf8: int -> seq<byte>, charGet: seq<byte> -> int): (r: HookResult)
    requires UcsConvWellFormed(u)
    ensures enc == Utf8 ==> r == HookValue(ucs4)
    // Without a context the answer is the invalid character, not the code point.
    ensures enc != Utf8 && u.ucs2char.None? ==> r == HookValue(CHAR_INVALID)
    ensures enc != Utf8 && u.ucs2char.Some? ==>
              var st := u.ucs2char.value.convert(InitialShift, toUtf8(ucs4), 6);
              && (r == ImplementationError <==> st.outcome == InputNotEnough || st.outcome == OutputNotEnough)
              && (st.outcome == IllegalSequence ==> r == HookValue(CHAR_INVALID))
              && (st.outcome == Converted ==> r == HookValue(charGet(Pad6(st.produced))))
  {
    if enc == Utf8 then HookValue(ucs4)
    else if u.ucs2char.None? then HookValue(CHAR_INVALID)
    else
      var st := u.ucs2char.value.convert(InitialShift, toUtf8(ucs4), 6);
      if st.outcome == InputNotEnough || st.outcome == OutputNotEnough then ImplementationError
      else if st.outcome == IllegalSequence then HookValue(CHAR_INVALID)
      else HookValue(charGet(Pad6(st.produced)))
  }

  /** In a UTF-8 build the two hooks are inverse on every valid character. */
  lemma Utf8HooksRoundTrip(u: UcsConv, ch: int, charPut: int -> seq<byte>,
                           toUtf8: int -> seq<byte>, charGet: seq<byte> -> int)
    requires UcsConvWellFormed(u) && ch != CHAR_INVALID
    ensures var code := CharToUcs(Utf8, u, ch, charPut);
            code == HookValue(ch) && UcsToChar(Utf8, u, code.value, toUtf8, charGet) == HookValue(ch)
  {
  }
}
