/** Dividing numbers into consecutive ranges of one size: segments of heights, ranges of values. The
    arithmetic is by repeated addition over a symbolic size. */
module Segments {
  type pos = x: nat | 0 < x witness 1

  /** First number of segment `id`: id * n. */
  function Start(id: nat, n: pos): nat {
    if id == 0 then 0 else Start(id - 1, n) + n
  }

  /** Segment of `h`: h / n. */
  function SegmentId(h: nat, n: pos): nat {
    if h < n then 0 else 1 + SegmentId(h - n, n)
  }

  /** Offset of `h` in its segment: h % n. */
  function SegmentOffset(h: nat, n: pos): nat {
    if h < n then h else SegmentOffset(h - n, n)
  }

  lemma {:induction false} StartMonotone(a: nat, b: nat, n: pos)
    ensures a <= b ==> Start(a, n) <= Start(b, n)
    ensures a < b ==> Start(a, n) + n <= Start(b, n)
    ensures a <= Start(a, n)
  {
    if a < b {
      StartMonotone(a, b - 1, n);
    } else if a > 0 {
      StartMonotone(a - 1, b, n);
    }
  }

  lemma {:induction false} SegmentBounds(h: nat, n: pos)
    ensures Start(SegmentId(h, n), n) <= h < Start(SegmentId(h, n), n) + n
    ensures SegmentOffset(h, n) == h - Start(SegmentId(h, n), n)
  {
    if h >= n {
      SegmentBounds(h - n, n);
    }
  }

  /** Exactly the numbers of a segment's range belong to it. */
  lemma SegmentOfHeight(h: nat, n: pos, id: nat)
    ensures SegmentId(h, n) == id <==> Start(id, n) <= h < Start(id, n) + n
  {
    SegmentBounds(h, n);
    StartMonotone(SegmentId(h, n), id, n);
    StartMonotone(id, SegmentId(h, n), n);
  }

  lemma {:induction false} StartIsProduct(id: nat, n: pos)
    ensures Start(id, n) == id * n
  {
    if id > 0 {
      StartIsProduct(id - 1, n);
      assert id * n == (id - 1) * n + n;
    }
  }

  lemma LessThanOneSegment(d: int, n: pos)
    requires d * n < n
    ensures d <= 0
  {
  }

  lemma Quotient(h: nat, n: pos, id: nat)
    requires id * n <= h < id * n + n
    ensures h / n == id && h % n == h - id * n
  {
    var q := h / n;
    assert h == q * n + h % n && 0 <= h % n < n;
    assert (q - id) * n == q * n - id * n && (id - q) * n == id * n - q * n;
    LessThanOneSegment(q - id, n);
    LessThanOneSegment(id - q, n);
  }

  /** Repeated addition computes quotient and remainder. */
  lemma QuotientAndRemainder(h: nat, n: pos)
    ensures SegmentId(h, n) == h / n && SegmentOffset(h, n) == h % n
  {
    SegmentBounds(h, n);
    StartIsProduct(SegmentId(h, n), n);
    Quotient(h, n, SegmentId(h, n));
  }
}
