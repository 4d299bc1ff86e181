/**
 * Searching cords (gc/cord/cordxtra.c): CORD_chr and CORD_rchr look for a
 * character with the chr_data record and its callbacks, and CORD_str looks
 * for a cord inside another one.  CORD_str keeps the first few characters
 * of the pattern and of the current candidate packed in an `unsigned long`
 * (64 bits here) and calls CORD_ncmp only when those agree.
 */
module CordSearch {
  import opened Wrappers
  import opened Cords
  import CordCompare

  /** strchr: the index of the first c in the C string s, where the
      terminating NUL counts as a character of the string. */
  function Strchr(s: seq<CChar>, c: CChar): (r: Option<nat>)
    requires NUL in s
    ensures r.Some? ==> r.value <= Strlen(s) && s[r.value] == c
    ensures r.Some? ==> forall j :: 0 <= j < r.value ==> s[j] != c
    ensures r.None? ==> forall j :: 0 <= j <= Strlen(s) ==> s[j] != c
  {
    if s[0] == c then Some(0)
    else if s[0] == NUL then None
    else
      assert NUL in s[1..];
      match Strchr(s[1..], c)
      case Some(k) => Some(k + 1)
      case None => None
  }

  class ChrData {
    /** The current position in the cord. */
    var pos: int
    /** The character looked for. */
    const target: CChar

    constructor (pos: int, target: CChar)
      ensures this.pos == pos && this.target == target
    {
      this.pos := pos;
      this.target := target;
    }

    /** CORD_chr_proc: stops on the target, otherwise moves one position on. */
    method ChrProc(c: CChar) returns (stop: bool)
      modifies this`pos
      ensures stop <==> c == target
      ensures pos == if stop then old(pos) else old(pos) + 1
    {
      if c == target {
        return true;
      }
      pos := pos + 1;
      return false;
    }

    /** CORD_rchr_proc: stops on the target, otherwise moves one position back. */
    method RchrProc(c: CChar) returns (stop: bool)
      modifies this`pos
      ensures stop <==> c == target
      ensures pos == if stop then old(pos) else old(pos) - 1
    {
      if c == target {
        return true;
      }
      pos := pos - 1;
      return false;
    }

    /** CORD_batched_chr_proc: moves on to the target's first occurrence in
        the C string s and stops, or moves past the whole string.  With a
        NUL target strchr finds the terminator, so the position ends just
        past the string's characters and the search stops there. */
    method BatchedChrProc(s: seq<CChar>) returns (stop: bool)
      requires NUL in s
      modifies this`pos
      ensures stop <==> exists j :: 0 <= j <= Strlen(s) && s[j] == target
      ensures stop ==> old(pos) <= pos <= old(pos) + Strlen(s) && s[pos - old(pos)] == target
      ensures stop ==> forall j :: 0 <= j < pos - old(pos) ==> s[j] != target
      ensures !stop ==> pos == old(pos) + Strlen(s)
    {
      var occ := Strchr(s, target);
      if occ.None? {
        pos := pos + Strlen(s);
        return false;
      }
      pos := pos + occ.value;
      return true;
    }
  }

  /** CORD_chr on a cord whose characters CORD_iter5 hands over one at a
      time through CORD_chr_proc, as it does for a function cord such as
      CORD_chars or CORD_nul: the position of the first c in x at i or
      later, or CORD_NOT_FOUND (None).  A NUL here is a character like any
      other. */
  method Chr(x: Cord, i: nat, c: CChar) returns (r: Option<nat>)
    ensures r.Some? ==> i <= r.value < |x| && x[r.value] == c
    ensures r.Some? ==> forall j :: i <= j < r.value ==> x[j] != c
    ensures r.None? ==> forall j :: i <= j < |x| ==> x[j] != c
  {
    var d := new ChrData(i, c);
    var k := i;
    while k < |x|
      invariant d.pos == k && d.target == c && i <= k && (k <= |x| || k == i)
      invariant forall j :: i <= j < k ==> x[j] != c
      decreases |x| - k
    {
      var stop := d.ChrProc(x[k]);
      if stop {
        return Some(d.pos);
      }
      k := k + 1;
    }
    return None;
  }

  /** CORD_chr on a cord that is one C string, which CORD_iter5 hands over
      whole to CORD_batched_chr_proc from position i.  For a character other
      than NUL the answer is that of Chr; a NUL target is found at the
      string's terminator, one past its last character. */
  method ChrInString(x: Cord, i: nat, c: CChar) returns (r: Option<nat>)
    // CORD_from_char_star turns "" into CORD_EMPTY, so a C-string cord is
    // never empty.
    requires x != [] && NUL !in x && i <= |x|
    ensures c == NUL ==> r == Some(|x|)
    ensures c != NUL && r.Some? ==> i <= r.value < |x| && x[r.value] == c
    ensures c != NUL && r.Some? ==> forall j :: i <= j < r.value ==> x[j] != c
    ensures c != NUL && r.None? ==> forall j :: i <= j < |x| ==> x[j] != c
  {
    var s := x[i..] + [NUL];
    assert s[|s| - 1] == NUL;
    assert Strlen(s) == |x| - i;
    var d := new ChrData(i, c);
    var stop := d.BatchedChrProc(s);
    if stop {
      return Some(d.pos);
    }
    return None;
  }

  /** CORD_rchr: the position of the last c in x at i or earlier, or
      CORD_NOT_FOUND (None). */
  method Rchr(x: Cord, i: nat, c: CChar) returns (r: Option<nat>)
    requires i < |x|
    ensures r.Some? ==> r.value <= i && x[r.value] == c
    ensures r.Some? ==> forall j :: r.value < j <= i ==> x[j] != c
    ensures r.None? ==> forall j :: 0 <= j <= i ==> x[j] != c
  {
    var d := new ChrData(i, c);
    var k := i;
    while k >= 0
      invariant d.pos == k && d.target == c && -1 <= k <= i
      invariant forall j :: k < j <= i ==> x[j] != c
      decreases k + 1
    {
      var stop := d.RchrProc(x[k]);
      if stop {
        return Some(d.pos);
      }
      k := k - 1;
    }
    return None;
  }

  /*------------------------------------------------------------------
   * The words of CORD_str.  An `unsigned long` is taken to be eight
   * bytes, and a word is the sequence of those bytes, most significant
   * first: CORD_str only shifts its words by whole bytes, ors a character
   * into the lowest byte and masks whole bytes, and on bytes these are the
   * operations below.
   */

  /** sizeof(unsigned long): the most characters a word holds. */
  const WORD_BYTES: nat := 8

  type Word = w: seq<CChar> | |w| == WORD_BYTES witness [0, 0, 0, 0, 0, 0, 0, 0]

  /** n copies of the byte b. */
  function Fill(n: nat, b: CChar): (r: seq<CChar>)
    ensures |r| == n && forall k :: 0 <= k < n ==> r[k] == b
  {
    seq(n, _ => b)
  }

  /** w <<= 8 */
  function ShiftLeft8(w: Word): (r: Word)
  {
    w[1..] + [0]
  }

  /** w |= c, for an unsigned character c */
  function OrLow(w: Word, c: CChar): (r: Word)
  {
    w[..WORD_BYTES - 1] + [w[WORD_BYTES - 1] | c]
  }

  /** w & m */
  function And(w: Word, m: Word): (r: Word)
  {
    seq(WORD_BYTES, k requires 0 <= k < WORD_BYTES => w[k] & m[k])
  }

  /** Up to eight characters in the low bytes of a word, the last one
      lowest, with zero bytes above them. */
  function Packed(cs: seq<CChar>): (r: Word)
    requires |cs| <= WORD_BYTES
  {
    Fill(WORD_BYTES - |cs|, 0) + cs
  }

  /** The mask that keeps the n lowest bytes of a word. */
  function Mask(n: nat): Word
    requires n <= WORD_BYTES
  {
    Packed(Fill(n, 0xff))
  }

  lemma FillMore(n: nat, b: CChar)
    ensures Fill(n, b) + [b] == Fill(n + 1, b)
  {
  }

  /* The bytes of the words above, one at a time. */

  lemma AndAt(w: Word, m: Word, k: nat)
    requires k < WORD_BYTES
    ensures And(w, m)[k] == w[k] & m[k]
  {
  }

  lemma ShiftInAt(w: Word, c: CChar, k: nat)
    requires k < WORD_BYTES
    ensures OrLow(ShiftLeft8(w), c)[k] == if k < WORD_BYTES - 1 then w[k + 1] else c
  {
  }

  lemma PackedAt(cs: seq<CChar>, k: nat)
    requires |cs| <= WORD_BYTES && k < WORD_BYTES
    ensures Packed(cs)[k] == if k < WORD_BYTES - |cs| then 0 else cs[k - (WORD_BYTES - |cs|)]
  {
  }

  lemma MaskAt(n: nat, k: nat)
    requires n <= WORD_BYTES && k < WORD_BYTES
    ensures Mask(n)[k] == if k < WORD_BYTES - n then 0 else 0xff
  {
    PackedAt(Fill(n, 0xff), k);
  }

  /** Shifting a character into a word that holds fewer than eight packs it
      after them. */
  lemma ShiftIn(cs: seq<CChar>, c: CChar)
    requires |cs| < WORD_BYTES
    ensures OrLow(ShiftLeft8(Packed(cs)), c) == Packed(cs + [c])
  {
    forall k | 0 <= k < WORD_BYTES
      ensures OrLow(ShiftLeft8(Packed(cs)), c)[k] == Packed(cs + [c])[k]
    {
      ShiftInAt(Packed(cs), c, k);
      PackedAt(cs + [c], k);
      if k < WORD_BYTES - 1 {
        PackedAt(cs, k + 1);
      }
    }
  }

  /** The mask of a word's length keeps a packed word as it is. */
  lemma MaskKeeps(cs: seq<CChar>)
    requires |cs| <= WORD_BYTES
    ensures And(Packed(cs), Mask(|cs|)) == Packed(cs)
  {
    forall k | 0 <= k < WORD_BYTES
      ensures And(Packed(cs), Mask(|cs|))[k] == Packed(cs)[k]
    {
      AndAt(Packed(cs), Mask(|cs|), k);
      MaskAt(|cs|, k);
      PackedAt(cs, k);
    }
  }

  /** Two packed words of the same length are equal only when they pack
      the same characters. */
  lemma PackedInjective(a: seq<CChar>, b: seq<CChar>)
    requires |a| == |b| <= WORD_BYTES
    ensures Packed(a) == Packed(b) <==> a == b
  {
    if Packed(a) == Packed(b) {
      assert a == Packed(a)[WORD_BYTES - |a|..];
    }
  }

  /** Rolling the window: when the masked word packs w, shifting the next
      character in and masking again packs w without its first character,
      followed by c. */
  lemma RollWindow(buf: Word, w: seq<CChar>, c: CChar)
    requires 1 <= |w| <= WORD_BYTES && And(buf, Mask(|w|)) == Packed(w)
    ensures And(OrLow(ShiftLeft8(buf), c), Mask(|w|)) == Packed(w[1..] + [c])
  {
    var next := OrLow(ShiftLeft8(buf), c);
    forall k | 0 <= k < WORD_BYTES
      ensures And(next, Mask(|w|))[k] == Packed(w[1..] + [c])[k]
    {
      AndAt(next, Mask(|w|), k);
      MaskAt(|w|, k);
      ShiftInAt(buf, c, k);
      PackedAt(w[1..] + [c], k);
      if k < WORD_BYTES - 1 {
        AndAt(buf, Mask(|w|), k + 1);
        MaskAt(|w|, k + 1);
        PackedAt(w, k + 1);
      }
    }
  }

  /*------------------------------------------------------------------
   * CORD_str
   */

  /** s occurs in x at position p. */
  ghost predicate OccursAt(x: Cord, s: Cord, p: nat) {
    p + |s| <= |x| && x[p..p + |s|] == s
  }

  /** An occurrence is its first `k` characters followed by the rest. */
  lemma OccursInTwoParts(x: Cord, s: Cord, p: nat, k: nat)
    requires p + |s| <= |x| && k <= |s|
    ensures OccursAt(x, s, p) <==> x[p..p + k] == s[..k] && x[p + k..p + |s|] == s[k..]
  {
    if x[p..p + k] == s[..k] && x[p + k..p + |s|] == s[k..] {
      assert x[p..p + |s|] == x[p..p + k] + x[p + k..p + |s|];
      assert s == s[..k] + s[k..];
    }
  }

  /** Past the last place s fits, it cannot occur. */
  lemma NoRoomNoOccurrence(x: Cord, s: Cord, from: nat)
    requires |x| < from + |s|
    ensures forall p :: from <= p ==> !OccursAt(x, s, p)
  {
  }

  /** Extending a slice by the character after it. */
  lemma Extend(x: Cord, start: nat, i: nat)
    requires start + i < |x|
    ensures x[start..start + i] + [x[start + i]] == x[start..start + i + 1]
  {
  }

  /** Moving a window of k characters of x one place on. */
  lemma Slide(x: Cord, p: nat, k: nat)
    requires 1 <= k && p + k < |x|
    ensures x[p..p + k][1..] + [x[p + k]] == x[p + 1..p + 1 + k]
  {
  }

  /** The first loop of CORD_str: packs the first startLen characters of s
      and of x from `start`, and builds the mask that keeps them. */
  method LoadWords(x: Cord, start: nat, s: Cord, startLen: nat) returns (mask: Word, sBuf: Word, xBuf: Word)
    requires startLen <= WORD_BYTES && startLen <= |s| && start + startLen <= |x|
    ensures mask == Mask(startLen) && sBuf == Packed(s[..startLen])
    ensures xBuf == Packed(x[start..start + startLen])
  {
    mask, sBuf, xBuf := Packed([]), Packed([]), Packed([]);
    assert Fill(0, 0xff) == [] && s[..0] == [] == x[start..start];
    var i := 0;
    while i < startLen
      invariant i <= startLen
      invariant mask == Mask(i) && sBuf == Packed(s[..i]) && xBuf == Packed(x[start..start + i])
    {
      ShiftIn(Fill(i, 0xff), 0xff);
      ShiftIn(s[..i], s[i]);
      ShiftIn(x[start..start + i], x[start + i]);
      mask := OrLow(ShiftLeft8(mask), 0xff);
      sBuf := OrLow(ShiftLeft8(sBuf), s[i]);
      xBuf := OrLow(ShiftLeft8(xBuf), x[start + i]);
      FillMore(i, 0xff);
      Extend(s, 0, i);
      Extend(x, start, i);
      i := i + 1;
    }
  }

  /** The test in CORD_str's second loop: the masked candidate word equals
      the pattern's word and, when s is longer than a word, CORD_ncmp finds
      the rest of s at the rest of the candidate.  It holds exactly when s
      occurs at matchPos. */
  method MatchesAt(x: Cord, s: Cord, matchPos: nat, startLen: nat, window: Word, sBuf: Word)
    returns (found: bool)
    requires startLen == (if |s| > WORD_BYTES then WORD_BYTES else |s|)
    requires matchPos + |s| <= |x|
    requires window == Packed(x[matchPos..matchPos + startLen]) && sBuf == Packed(s[..startLen])
    ensures found <==> OccursAt(x, s, matchPos)
  {
    OccursInTwoParts(x, s, matchPos, startLen);
    PackedInjective(x[matchPos..matchPos + startLen], s[..startLen]);
    if window != sBuf {
      return false;
    }
    if |s| == startLen {
      return true;
    }
    var c := CordCompare.Ncmp(x, matchPos + startLen, s, startLen, |s| - startLen);
    assert CordCompare.Segment(x, matchPos + startLen, |s| - startLen) == x[matchPos + startLen..matchPos + |s|];
    assert CordCompare.Segment(s, startLen, |s| - startLen) == s[startLen..];
    return c == 0;
  }

  /** CORD_str: the first position at `start` or later where s occurs in x,
      or CORD_NOT_FOUND (None).  An empty s is found at `start` whatever
      `start` is. */
  method Str(x: Cord, start: nat, s: Cord) returns (r: Option<nat>)
    ensures s == [] ==> r == Some(start)
    ensures s != [] && r.Some? ==> start <= r.value && OccursAt(x, s, r.value)
    ensures s != [] && r.Some? ==> forall p :: start <= p < r.value ==> !OccursAt(x, s, p)
    ensures s != [] && r.None? ==> forall p :: start <= p ==> !OccursAt(x, s, p)
  {
    if s == [] {
      return Some(start);
    }
    var xlen, slen := |x|, |s|;
    if xlen < start || xlen - start < slen {
      NoRoomNoOccurrence(x, s, start);
      return None;
    }
    var startLen := if slen > WORD_BYTES then WORD_BYTES else slen;
    var mask, sBuf, xBuf := LoadWords(x, start, s, startLen);
    MaskKeeps(x[start..start + startLen]);
    var matchPos := start;
    while true
      invariant start <= matchPos <= xlen - slen
      invariant And(xBuf, mask) == Packed(x[matchPos..matchPos + startLen])
      invariant forall p :: start <= p < matchPos ==> !OccursAt(x, s, p)
      decreases xlen - slen - matchPos
    {
      var found := MatchesAt(x, s, matchPos, startLen, And(xBuf, mask), sBuf);
      if found {
        return Some(matchPos);
      }
      if matchPos == xlen - slen {
        NoRoomNoOccurrence(x, s, matchPos + 1);
        return None;
      }
      RollWindow(xBuf, x[matchPos..matchPos + startLen], x[matchPos + startLen]);
      Slide(x, matchPos, startLen);
      xBuf := OrLow(ShiftLeft8(xBuf), x[matchPos + startLen]);
      matchPos := matchPos + 1;
    }
  }
}
