/** Byte ranges: which requests for parts of a representation are accepted, how much they can select,
    and the multipart body that answers them, whose length is announced before it is made. */
module Ranges {
  type Range = (int, int)

  const RANGE_MAX_COUNT := 1024

  /** The positions a range stands for in a representation of `len` bytes; `-1` marks an absent number. */
  function Normalize(r: Range, len: nat): Range {
    var (f0, l0) := if r.0 == -1 && r.1 == -1 then (0, len) else r;
    var (f1, l1) := if f0 == -1 then (len - l0, len - 1) else (f0, l0);
    (f1, if l1 == -1 || l1 >= len then len - 1 else l1)
  }

  predicate Inside(r: Range, len: nat) {
    0 <= r.0 <= r.1 < len
  }

  function NormalizeAll(rs: seq<Range>, len: nat): (ns: seq<Range>)
    ensures |ns| == |rs|
  {
    seq(|rs|, i requires 0 <= i < |rs| => Normalize(rs[i], len))
  }

  function Max(a: int, b: int): int {
    if a > b then a else b
  }

  /** The last position any of the ranges reaches. */
  function Reach(rs: seq<Range>): int {
    if rs == [] then -1 else Max(Reach(rs[..|rs| - 1]), rs[|rs| - 1].1)
  }

  /** How many ranges begin at or before a position an earlier one reaches. */
  function Overlaps(rs: seq<Range>): nat {
    if rs == [] then 0
    else
      var before := rs[..|rs| - 1];
      Overlaps(before) + (if rs[|rs| - 1].0 <= Reach(before) then 1 else 0)
  }

  predicate Ascending(rs: seq<Range>) {
    forall i, j :: 0 <= i < j < |rs| ==> rs[i].0 < rs[j].0
  }

  /** What section 14.2 of RFC 9110 lets a server insist on: few ranges, all inside, in ascending order,
      at most two of them overlapping what went before. */
  predicate Acceptable(rs: seq<Range>, len: nat) {
    && |rs| <= RANGE_MAX_COUNT
    && (forall i :: 0 <= i < |rs| ==> Inside(rs[i], len))
    && Ascending(rs)
    && Overlaps(rs) <= 2
  }

  lemma {:induction false} OverlapsGrow(rs: seq<Range>, k: nat)
    requires k <= |rs|
    ensures Overlaps(rs[..k]) <= Overlaps(rs)
    decreases |rs|
  {
    if k < |rs| {
      assert rs[..|rs| - 1][..k] == rs[..k];
      OverlapsGrow(rs[..|rs| - 1], k);
    } else {
      assert rs[..k] == rs;
    }
  }

  lemma AcceptPrefix(rs: seq<Range>, k: nat, len: nat)
    requires k <= |rs| && Acceptable(rs, len)
    ensures Acceptable(rs[..k], len)
  {
    OverlapsGrow(rs, k);
  }

  /** What the next range must satisfy for the ranges so far to stay acceptable. */
  lemma AcceptNext(rs: seq<Range>, i: nat, len: nat)
    requires i < |rs| <= RANGE_MAX_COUNT && Acceptable(rs[..i], len)
    ensures var overlapping := Overlaps(rs[..i]) + (if rs[i].0 <= Reach(rs[..i]) then 1 else 0);
            && (Acceptable(rs[..i + 1], len) <==>
                Inside(rs[i], len) && (i > 0 ==> rs[i - 1].0 < rs[i].0) && overlapping <= 2)
            && Overlaps(rs[..i + 1]) == overlapping && Reach(rs[..i + 1]) == Max(Reach(rs[..i]), rs[i].1)
  {
    var now, next := rs[..i], rs[..i + 1];
    assert next[..i] == now && next[i] == rs[i];
    if i > 0 && rs[i - 1].0 < rs[i].0 {
      forall a, b | 0 <= a < b < |next| ensures next[a].0 < next[b].0 {
        if b == i && a < i - 1 {
          assert now[a].0 < now[i - 1].0;
        } else if b < i {
          assert now[a].0 < now[b].0;
        }
      }
    }
    if Ascending(next) && i > 0 {
      assert next[i - 1].0 < next[i].0;
    }
    if Acceptable(next, len) {
      assert Inside(next[i], len);
    }
  }

  lemma MustStayAcceptable(rs: seq<Range>, k: nat, len: nat)
    requires k <= |rs|
    ensures Acceptable(rs, len) ==> Acceptable(rs[..k], len)
  {
    if Acceptable(rs, len) {
      AcceptPrefix(rs, k, len);
    }
  }

  lemma NormalizeAllAt(rs: seq<Range>, len: nat, i: nat)
    requires i < |rs|
    ensures NormalizeAll(rs, len)[i] == Normalize(rs[i], len)
  {
  }

  lemma Mixed(all: seq<Range>, asked: seq<Range>, i: nat)
    requires i < |all| == |asked|
    ensures (all[..i] + asked[i..])[i] == asked[i]
    ensures (all[..i] + asked[i..])[i := all[i]] == all[..i + 1] + asked[i + 1..]
  {
  }

  /** Rewrites the range at `i` to the positions it stands for. */
  method NormalizeAt(ranges: array<Range>, i: nat, contentLen: nat)
    requires i < ranges.Length
    modifies ranges
    ensures ranges[..] == old(ranges[..])[i := Normalize(old(ranges[i]), contentLen)]
  {
    var (first, last) := ranges[i];
    if first == -1 && last == -1 {
      first, last := 0, contentLen;
    }
    if first == -1 {
      first := contentLen - last;
      last := contentLen - 1;
    }
    if last == -1 || last >= contentLen {
      last := contentLen - 1;
    }
    ranges[i] := (first, last);
  }

  /** A representation is rejected exactly when its normalized ranges are not acceptable; when it is not,
      the ranges have been rewritten in place to the normalized ones. */
  method RangeError(ranges: array<Range>, status: int, contentLen: nat) returns (err: bool)
    modifies ranges
    ensures var checked := ranges.Length > 0 && 200 <= status < 300;
            && err == (checked && !Acceptable(NormalizeAll(old(ranges[..]), contentLen), contentLen))
            && (!err ==> ranges[..] == if checked then NormalizeAll(old(ranges[..]), contentLen) else old(ranges[..]))
  {
    if !(ranges.Length > 0 && 200 <= status < 300) {
      return false;
    }
    ghost var asked, all := ranges[..], NormalizeAll(ranges[..], contentLen);
    var prevFirst, prevLast, overlapping := -1, -1, 0;
    if ranges.Length > RANGE_MAX_COUNT {
      return true;
    }
    assert all[..0] == [] && ranges[..] == all[..0] + asked[0..];
    assert Acceptable(all[..0], contentLen);
    hide Acceptable, NormalizeAll, Reach, Overlaps, Normalize;
    for i := 0 to ranges.Length
      invariant ranges[..] == all[..i] + asked[i..]
      invariant Acceptable(all[..i], contentLen)
      invariant prevFirst == (if i == 0 then -1 else all[i - 1].0)
      invariant prevLast == Reach(all[..i]) && overlapping == Overlaps(all[..i])
    {
      Mixed(all, asked, i);
      NormalizeAllAt(asked, contentLen, i);
      assert ranges[i] == ranges[..][i] == asked[i];
      NormalizeAt(ranges, i, contentLen);
      assert ranges[i] == ranges[..][i] == all[i];
      var (first, last) := ranges[i];
      AcceptNext(all, i, contentLen);
      MustStayAcceptable(all, i + 1, contentLen);
      if !(0 <= first && first <= last && last <= contentLen - 1) {
        return true;
      }
      if first <= prevFirst {
        return true;
      }
      if first <= prevLast {
        overlapping := overlapping + 1;
        if overlapping > 2 {
          return true;
        }
      }
      prevFirst := Max(prevFirst, first);
      prevLast := Max(prevLast, last);
    }
    assert all[..|all|] == all;
    err := false;
  }

  // ----- what a range asks for

  /** A range as a request can name it. */
  predicate Requestable(r: Range) {
    r.0 >= -1 && r.1 >= -1 && (r.0 >= 0 && r.1 >= 0 ==> r.0 <= r.1)
  }

  /** The positions that section 14.1.2 of RFC 9110 gives a range: from the first to the last, to the end
      where the last is absent, and the last ones, so many of them, where the first is. */
  predicate Selects(r: Range, len: nat, p: int) {
    && 0 <= p < len
    && if r.0 == -1 then r.1 == -1 || p >= len - r.1 else r.0 <= p && (r.1 == -1 || p <= r.1)
  }

  /** A range that lies inside when normalized stands for just these positions. */
  lemma NormalizeSelects(r: Range, len: nat, p: int)
    requires Requestable(r) && Inside(Normalize(r, len), len)
    ensures Normalize(r, len).0 <= p <= Normalize(r, len).1 <==> Selects(r, len, p)
  {
  }

  /** A range that selects something lies inside, except for one case in which the program departs from
      the standard: more of the last positions are asked for than there are. */
  lemma RejectedThoughSelecting(r: Range, len: nat)
    requires Requestable(r)
    ensures (exists p :: Selects(r, len, p)) && !Inside(Normalize(r, len), len) <==> r.0 == -1 && r.1 > len > 0
    ensures Inside(Normalize(r, len), len) ==> exists p :: Selects(r, len, p)
  {
    if Inside(Normalize(r, len), len) {
      assert Selects(r, len, Normalize(r, len).0);
    }
    if r.0 == -1 && r.1 > len > 0 {
      assert Selects(r, len, 0);
    }
  }

  // ----- how much the ranges select

  function Length(r: Range): int {
    r.1 - r.0 + 1
  }

  function Total(rs: seq<Range>): int {
    if rs == [] then 0 else Total(rs[..|rs| - 1]) + Length(rs[|rs| - 1])
  }

  lemma {:induction false} TotalBound(rs: seq<Range>, len: nat)
    requires forall i :: 0 <= i < |rs| ==> Inside(rs[i], len)
    ensures -1 <= Reach(rs) < len || (rs == [] && Reach(rs) == -1)
    ensures Total(rs) <= Reach(rs) + 1 + Overlaps(rs) * len
  {
    if rs != [] {
      var before, r := rs[..|rs| - 1], rs[|rs| - 1];
      TotalBound(before, len);
      if r.0 <= Reach(before) {
        assert (Overlaps(before) + 1) * len == Overlaps(before) * len + len;
      }
    }
  }

  /** Accepted ranges never select more than three times the representation. */
  lemma OutputBound(rs: seq<Range>, len: nat)
    requires Acceptable(rs, len)
    ensures Total(rs) <= 3 * len
  {
    TotalBound(rs, len);
    var o := Overlaps(rs);
    assert o <= 2 && Reach(rs) + 1 <= len;
    hide *;
    assert o * len <= 2 * len by {
      assert o == 0 || o == 1 || o == 2;
    }
  }
}
