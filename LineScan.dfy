// The line-boundary part of Console::write_match_line: widening a match span
// to the line that encloses it.

module LineScan {
  import opened Output

  /** A match span: byte offsets into the buffer being searched. */
  datatype Match = Match(beg: nat, end: nat)

  /** CR (0x0D) and LF (0x0A) end a line. */
  predicate IsSep(b: bv8)
  {
    b == 0x0D || b == 0x0A
  }

  /** No byte of s is a line separator. */
  ghost predicate NoSep(s: seq<bv8>)
  {
    forall j :: 0 <= j < |s| ==> !IsSep(s[j])
  }

  /**
   * What write_match_line needs of its caller: a span inside the buffer,
   * a start offset that can be indexed unless it is 0, and no CR/LF at
   * offset 0 when the span ends there (the forward scan would decrement an
   * unsigned 0).
   */
  predicate ValidSpan(src: seq<bv8>, m: Match)
  {
    m.beg <= m.end <= |src| &&
    (m.beg == 0 || m.beg < |src|) &&
    !(m.end == 0 && |src| > 0 && IsSep(src[0]))
  }

  /** The largest offset in 1..=i holding a separator; offset 0 is never looked at. */
  function LastSep(src: seq<bv8>, i: nat): (r: Option<nat>)
    requires i == 0 || i < |src|
    ensures r.Some? ==> 1 <= r.value <= i && IsSep(src[r.value])
    ensures r.Some? ==> forall k :: r.value < k <= i ==> !IsSep(src[k])
    ensures r.None? ==> forall k :: 1 <= k <= i ==> !IsSep(src[k])
    decreases i
  {
    if i == 0 then None
    else if IsSep(src[i]) then Some(i)
    else LastSep(src, i - 1)
  }

  /** The smallest offset at or after i holding a separator. */
  function FirstSep(src: seq<bv8>, i: nat): (r: Option<nat>)
    requires i <= |src|
    ensures r.Some? ==> i <= r.value < |src| && IsSep(src[r.value])
    ensures r.Some? ==> forall k :: i <= k < r.value ==> !IsSep(src[k])
    ensures r.None? ==> forall k :: i <= k < |src| ==> !IsSep(src[k])
    decreases |src| - i
  {
    if i == |src| then None
    else if IsSep(src[i]) then Some(i)
    else FirstSep(src, i + 1)
  }

  /** Where the backward scan stops (see LineBeginSpec). */
  function LineBegin(src: seq<bv8>, beg: nat): (r: nat)
    requires beg == 0 || beg < |src|
    ensures r <= beg + 1
  {
    match LastSep(src, beg)
    case None => 0
    case Some(k) => k + 1
  }

  /** Where the forward scan stops once line 91 has adjusted it (see LineEndSpec). */
  function LineEnd(src: seq<bv8>, end: nat): (r: nat)
    requires end <= |src|
    ensures end <= r <= |src|
  {
    match FirstSep(src, end)
    case None => |src|
    case Some(k) => k
  }

  /**
   * The backward scan stops one past the last separator at an offset in
   * 1..=beg, and at 0 when there is none; offset 0 itself is never examined.
   */
  lemma LineBeginSpec(src: seq<bv8>, beg: nat)
    requires beg == 0 || beg < |src|
    ensures var r := LineBegin(src, beg);
      (r == 0 <==> forall k :: 1 <= k <= beg ==> !IsSep(src[k])) &&
      (r > 0 ==> 2 <= r && IsSep(src[r - 1])) &&
      (forall k :: r <= k <= beg && k > 0 ==> !IsSep(src[k]))
  {
    var _ := LastSep(src, beg);
  }

  /**
   * The forward scan stops at the first separator at or after end, or at
   * the length of the buffer when there is none.
   */
  lemma LineEndSpec(src: seq<bv8>, end: nat)
    requires end <= |src|
    ensures var r := LineEnd(src, end);
      (r < |src| ==> IsSep(src[r])) &&
      (forall k :: end <= k < r ==> !IsSep(src[k]))
  {
    var _ := FirstSep(src, end);
  }

  /** Any offset with LineBegin's defining property is LineBegin. */
  lemma LineBeginUnique(src: seq<bv8>, beg: nat, b: nat)
    requires beg == 0 || beg < |src|
    requires b == 0 || (2 <= b <= beg + 1 && IsSep(src[b - 1]))
    requires forall k :: b <= k <= beg && k > 0 ==> !IsSep(src[k])
    ensures b == LineBegin(src, beg)
  {
    LineBeginSpec(src, beg);
  }

  /** Any offset with LineEnd's defining property is LineEnd. */
  lemma LineEndUnique(src: seq<bv8>, end: nat, e: nat)
    requires end <= e <= |src|
    requires e < |src| ==> IsSep(src[e])
    requires forall k :: end <= k < e ==> !IsSep(src[k])
    ensures e == LineEnd(src, end)
  {
    LineEndSpec(src, end);
  }

  /**
   * The two scanning loops of write_match_line (lines 81-91), with the
   * same breaks and the same final adjustment of end.
   */
  method LineBounds(src: seq<bv8>, m: Match) returns (lineBegin: nat, lineEnd: nat)
    requires ValidSpan(src, m)
    ensures lineBegin == LineBegin(src, m.beg)
    ensures lineEnd == LineEnd(src, m.end)
  {
    var beg: nat := m.beg;
    while beg > 0
      invariant beg <= m.beg
      invariant forall k :: beg < k <= m.beg ==> !IsSep(src[k])
    {
      if IsSep(src[beg]) {
        LineBeginUnique(src, m.beg, beg + 1);
        beg := beg + 1;
        break;
      }
      beg := beg - 1;
    }
    if beg == 0 {
      LineBeginUnique(src, m.beg, 0);
    }
    var end: nat := m.end;
    while |src| > end
      invariant m.end <= end <= |src|
      invariant forall k :: m.end <= k < end ==> !IsSep(src[k])
      decreases |src| - end
    {
      if IsSep(src[end]) {
        LineEndUnique(src, m.end, end);
        end := end - 1;
        break;
      }
      end := end + 1;
    }
    if |src| <= end {
      LineEndUnique(src, m.end, end);
      end := |src|;
    } else {
      end := end + 1;
    }
    lineBegin, lineEnd := beg, end;
  }
}
