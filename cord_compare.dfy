/**
 * Cord comparison (gc/cord/cordxtra.c): CORD_cmp over whole cords and
 * CORD_ncmp over at most `len` characters from two starting positions.  The
 * source walks both cords with positions, comparing a character at a time or
 * a run of characters with strncmp when both positions sit in C strings;
 * either way the first differing character decides, compared as unsigned.
 * The model compares a character at a time and answers with the difference
 * of the first differing characters, which has the sign strcmp and strncmp
 * promise.
 */
module CordCompare {
  import opened Cords

  /** Lexicographic order on cords: a proper prefix comes first. */
  predicate LexLess(x: Cord, y: Cord)
    decreases |x|
  {
    if x == [] then y != []
    else y != [] && (x[0] < y[0] || (x[0] == y[0] && LexLess(x[1..], y[1..])))
  }

  /** LexLess is a strict total order: never both ways, exactly one way
      between distinct cords. */
  lemma {:induction false} LexLessTotal(x: Cord, y: Cord)
    ensures !(LexLess(x, y) && LexLess(y, x))
    ensures x != y <==> LexLess(x, y) || LexLess(y, x)
    decreases |x|
  {
    if x != [] && y != [] {
      LexLessTotal(x[1..], y[1..]);
      if x[0] == y[0] && x[1..] == y[1..] {
        assert x == [x[0]] + x[1..] && y == [y[0]] + y[1..];
      }
    }
  }

  lemma {:induction false} LexLessTransitive(x: Cord, y: Cord, z: Cord)
    requires LexLess(x, y) && LexLess(y, z)
    ensures LexLess(x, z)
    decreases |x|
  {
    if x != [] && x[0] == y[0] && y[0] == z[0] {
      LexLessTransitive(x[1..], y[1..], z[1..]);
    }
  }

  /** A common prefix does not decide: the order is that of what follows it. */
  lemma {:induction false} LexLessAfterPrefix(x: Cord, y: Cord, i: nat)
    requires i <= |x| && i <= |y| && x[..i] == y[..i]
    ensures LexLess(x, y) == LexLess(x[i..], y[i..])
    decreases i
  {
    if i > 0 {
      assert x[0] == x[..i][0] && y[0] == y[..i][0];
      assert x[1..][..i - 1] == x[1..i] == x[..i][1..];
      assert y[1..][..i - 1] == y[1..i] == y[..i][1..];
      LexLessAfterPrefix(x[1..], y[1..], i - 1);
      assert x[1..][i - 1..] == x[i..] && y[1..][i - 1..] == y[i..];
    }
  }

  /** The cords agree on their first i characters and then differ in the
      next character or in where they end: the comparison result r is right. */
  lemma Decided(x: Cord, y: Cord, i: nat, r: int)
    requires i <= |x| && i <= |y| && x[..i] == y[..i]
    requires i == |x| || i == |y| || x[i] != y[i]
    requires r == (if i == |x| && i == |y| then 0
                   else if i == |x| then -1
                   else if i == |y| then 1
                   else x[i] as int - y[i] as int)
    ensures r == 0 <==> x == y
    ensures r < 0 <==> LexLess(x, y)
    ensures r > 0 <==> LexLess(y, x)
  {
    LexLessAfterPrefix(x, y, i);
    LexLessAfterPrefix(y, x, i);
    LexLessTotal(x, y);
    if i == |x| && i == |y| {
      assert x == x[..i] && y == y[..i];
    } else if i < |x| && i < |y| {
      assert x[i..][0] == x[i] && y[i..][0] == y[i];
    } else {
      assert |x| != |y|;
    }
  }

  /** CORD_cmp: an empty y gives 1 for a non-empty x and 0 otherwise, an
      empty x against a non-empty y gives -1, and otherwise the sign of the
      result is the lexicographic order, 0 exactly for equal cords. */
  method Cmp(x: Cord, y: Cord) returns (r: int)
    ensures y == [] ==> r == (if x != [] then 1 else 0)
    ensures x == [] && y != [] ==> r == -1
    ensures r == 0 <==> x == y
    ensures r < 0 <==> LexLess(x, y)
    ensures r > 0 <==> LexLess(y, x)
  {
    if y == [] {
      r := if x != [] then 1 else 0;
      Decided(x, y, 0, r);
      return;
    }
    if x == [] {
      r := -1;
      Decided(x, y, 0, r);
      return;
    }
    var i := 0;
    while true
      invariant 0 <= i <= |x| && i <= |y|
      invariant x[..i] == y[..i]
      decreases |x| - i
    {
      if i == |x| {
        r := if i < |y| then -1 else 0;
        Decided(x, y, i, r);
        return;
      }
      if i == |y| {
        r := 1;
        Decided(x, y, i, r);
        return;
      }
      if x[i] != y[i] {
        r := x[i] as int - y[i] as int;
        Decided(x, y, i, r);
        return;
      }
      assert x[..i + 1] == x[..i] + [x[i]] && y[..i + 1] == y[..i] + [y[i]];
      i := i + 1;
    }
  }

  /** The at most `len` characters of x from position `start` (none when
      `start` is past the end). */
  function Segment(x: Cord, start: nat, len: nat): (r: Cord)
    ensures |r| == if start >= |x| then 0 else Min(len, |x| - start)
    ensures forall k :: 0 <= k < |r| ==> r[k] == x[start + k]
  {
    if start >= |x| then []
    else if |x| - start >= len then x[start..start + len]
    else x[start..]
  }

  /** CORD_ncmp: compares the `len` characters of x from `xStart` with those
      of y from `yStart`.  It answers 0 when they agree or both cords end
      together first, a negative value when x ends first or has the smaller
      first differing character, and looks at no more than `len` characters. */
  method Ncmp(x: Cord, xStart: nat, y: Cord, yStart: nat, len: nat) returns (r: int)
    ensures r == 0 <==> Segment(x, xStart, len) == Segment(y, yStart, len)
    ensures r < 0 <==> LexLess(Segment(x, xStart, len), Segment(y, yStart, len))
    ensures r > 0 <==> LexLess(Segment(y, yStart, len), Segment(x, xStart, len))
  {
    ghost var a := Segment(x, xStart, len);
    ghost var b := Segment(y, yStart, len);
    var count := 0;
    while count < len
      invariant count <= len && count <= |a| && count <= |b|
      invariant a[..count] == b[..count]
    {
      if xStart + count >= |x| {
        r := if yStart + count < |y| then -1 else 0;
        Decided(a, b, count, r);
        return;
      }
      if yStart + count >= |y| {
        r := 1;
        Decided(a, b, count, r);
        return;
      }
      var xc := x[xStart + count];
      var yc := y[yStart + count];
      if xc != yc {
        r := xc as int - yc as int;
        Decided(a, b, count, r);
        return;
      }
      assert a[..count + 1] == a[..count] + [a[count]] && b[..count + 1] == b[..count] + [b[count]];
      count := count + 1;
    }
    r := 0;
    Decided(a, b, count, r);
  }
}
