/** Weighted selection: `selectWinner` draws with rejection, the variant allocators draw without it. */
module DrawSampling {

  /** A SHA-256 digest read as a number. */
  const RANGE := 0x1_0000_0000_0000_0000_0000_0000_0000_0000_0000_0000_0000_0000_0000_0000_0000_0000
  const MAX_SAFE := 0x1F_FFFF_FFFF_FFFF
  const ATTEMPTS := 1_000

  type Sample = s: nat | s < RANGE

  datatype Draw = BadTotal | NotConverged | Selected(position: nat, selectedIndex: nat, counter: nat)

  function Total(ws: seq<nat>): nat {
    if ws == [] then 0 else Total(ws[..|ws| - 1]) + ws[|ws| - 1]
  }

  /** What the scan's running cursor holds before position `i`. */
  function Cursor(ws: seq<nat>, i: nat): nat
    requires i <= |ws|
  {
    Total(ws[..i])
  }

  /** Position `i` owns the numbers from its cursor up to the next one: exactly `ws[i]` of them. */
  predicate Owns(ws: seq<nat>, i: nat, x: nat) {
    i < |ws| && Cursor(ws, i) <= x < Cursor(ws, i) + ws[i]
  }

  lemma CursorStep(ws: seq<nat>, i: nat)
    requires i < |ws|
    ensures Cursor(ws, i + 1) == Cursor(ws, i) + ws[i]
  {
    assert ws[..i + 1][..i] == ws[..i];
  }

  lemma CursorEnd(ws: seq<nat>)
    ensures Cursor(ws, |ws|) == Total(ws)
  {
    assert ws[..|ws|] == ws;
  }

  lemma {:induction false} CursorMonotone(ws: seq<nat>, i: nat, j: nat)
    requires i <= j <= |ws|
    ensures Cursor(ws, i) <= Cursor(ws, j)
    decreases j
  {
    if i < j {
      CursorMonotone(ws, i, j - 1);
      CursorStep(ws, j - 1);
    }
  }

  lemma OwnerIsUnique(ws: seq<nat>, i: nat, j: nat, x: nat)
    requires Owns(ws, i, x) && Owns(ws, j, x)
    ensures i == j
  {
    if i < j { CursorStep(ws, i); CursorMonotone(ws, i + 1, j); }
    if j < i { CursorStep(ws, j); CursorMonotone(ws, j + 1, i); }
  }

  lemma OwnedIsBelowTotal(ws: seq<nat>, i: nat)
    requires i < |ws|
    ensures Cursor(ws, i) + ws[i] <= Total(ws)
  {
    CursorStep(ws, i);
    CursorMonotone(ws, i + 1, |ws|);
    CursorEnd(ws);
  }

  /** The cumulative `find`: it resolves exactly when `x` is below the total. */
  method Scan(ws: seq<nat>, x: nat) returns (found: bool, position: nat)
    ensures found <==> x < Total(ws)
    ensures found ==> Owns(ws, position, x)
  {
    position := 0;
    var cursor := 0;
    CursorEnd(ws);
    while position < |ws|
      invariant 0 <= position <= |ws|
      invariant cursor == Cursor(ws, position) <= x
    {
      CursorStep(ws, position);
      CursorMonotone(ws, position + 1, |ws|);
      cursor := cursor + ws[position];
      if x < cursor {
        return true, position;
      }
      position := position + 1;
    }
    found := false;
  }

  function Limit(total: nat): nat
    requires total > 0
  {
    RANGE - RANGE % total
  }

  ghost predicate Accepts(hash: nat -> Sample, total: nat, counter: nat)
    requires total > 0
  {
    && counter < ATTEMPTS && hash(counter) < Limit(total)
    && forall c :: 0 <= c < counter ==> hash(c) >= Limit(total)
  }

  /** What a draw must be, given the weights and the stream of hashes. */
  ghost predicate IsDraw(hash: nat -> Sample, ws: seq<nat>, draw: Draw) {
    var total := Total(ws);
    match draw
    case BadTotal => total == 0 || total > MAX_SAFE
    case NotConverged => 0 < total <= MAX_SAFE && forall c :: 0 <= c < ATTEMPTS ==> hash(c) >= Limit(total)
    case Selected(position, selectedIndex, counter) =>
      && 0 < total <= MAX_SAFE && Accepts(hash, total, counter)
      && selectedIndex == hash(counter) % total && Owns(ws, position, selectedIndex)
  }

  /** `selectWinner`. The branch in which the winner allocation could not be resolved is unreachable. */
  method SelectWinner(hash: nat -> Sample, ws: seq<nat>) returns (draw: Draw)
    ensures IsDraw(hash, ws, draw)
  {
    var total := 0;
    var k := 0;
    while k < |ws|
      invariant 0 <= k <= |ws| && total == Cursor(ws, k)
    {
      CursorStep(ws, k);
      total := total + ws[k];
      k := k + 1;
    }
    CursorEnd(ws);
    if total > MAX_SAFE || total <= 0 {
      return BadTotal;
    }
    var limit := RANGE - RANGE % total;
    var counter := 0;
    while counter < ATTEMPTS
      invariant 0 <= counter <= ATTEMPTS
      invariant forall c :: 0 <= c < counter ==> hash(c) >= limit
    {
      if hash(counter) < limit {
        break;
      }
      counter := counter + 1;
    }
    if counter >= ATTEMPTS {
      return NotConverged;
    }
    var selectedIndex := hash(counter) % total;
    var found, position := Scan(ws, selectedIndex);
    assert found;
    draw := Selected(position, selectedIndex, counter);
  }

  /** The weights and hashes determine the draw: anyone can recompute it. */
  lemma DrawIsReproducible(hash: nat -> Sample, ws: seq<nat>, a: Draw, b: Draw)
    requires IsDraw(hash, ws, a) && IsDraw(hash, ws, b)
    ensures a == b
  {
    if a.Selected? && b.Selected? {
      assert a.counter == b.counter;
      OwnerIsUnique(ws, a.position, b.position, a.selectedIndex);
    }
  }

  lemma {:induction false} FirstAccepted(hash: nat -> Sample, total: nat, c: nat) returns (counter: nat)
    requires total > 0 && c < ATTEMPTS && hash(c) < Limit(total)
    ensures counter <= c && Accepts(hash, total, counter)
  {
    counter := c;
    if exists k :: 0 <= k < c && hash(k) < Limit(total) {
      var k :| 0 <= k < c && hash(k) < Limit(total);
      counter := FirstAccepted(hash, total, k);
    }
  }

  lemma DrawExists(hash: nat -> Sample, ws: seq<nat>)
    ensures exists d :: IsDraw(hash, ws, d)
  {
    var total := Total(ws);
    if total == 0 || total > MAX_SAFE {
      assert IsDraw(hash, ws, BadTotal);
    } else if forall c :: 0 <= c < ATTEMPTS ==> hash(c) >= Limit(total) {
      assert IsDraw(hash, ws, NotConverged);
    } else {
      var c :| 0 <= c < ATTEMPTS && hash(c) < Limit(total);
      var counter := FirstAccepted(hash, total, c);
      CursorEnd(ws);
      var position := FindOwner(ws, hash(counter) % total, |ws|);
      assert IsDraw(hash, ws, Selected(position, hash(counter) % total, counter));
    }
  }

  /** The one draw there is. */
  ghost function DrawOf(hash: nat -> Sample, ws: seq<nat>): (draw: Draw)
    ensures IsDraw(hash, ws, draw)
  {
    DrawExists(hash, ws);
    var d :| IsDraw(hash, ws, d);
    d
  }

  // ------------------------------------------------------------------ counting

  /** The hashes below `n` whose remainder selects position `i`. */
  ghost function Choosing(ws: seq<nat>, i: nat, n: nat): set<nat>
    requires Total(ws) > 0
  {
    set s: nat | s < n && Owns(ws, i, s % Total(ws))
  }

  ghost function Overlap(rest: nat, low: nat, high: nat): nat {
    if rest <= low then 0 else if rest <= high then rest - low else if low <= high then high - low else 0
  }

  lemma NextQuotient(n: nat, t: nat)
    requires t > 0
    ensures n % t == t - 1 ==> (n + 1) / t == n / t + 1 && (n + 1) % t == 0
    ensures n % t < t - 1 ==> (n + 1) / t == n / t && (n + 1) % t == n % t + 1
  {
    var q, r := n / t, n % t;
    assert n + 1 == q * t + (r + 1);
    if r == t - 1 {
      assert n + 1 == (q + 1) * t;
      Divide(n + 1, t, q + 1, 0);
    } else {
      Divide(n + 1, t, q, r + 1);
    }
  }

  lemma Divide(n: nat, t: nat, q: nat, r: nat)
    requires r < t && n == q * t + r
    ensures n / t == q && n % t == r
  {
    var d := n / t - q;
    assert n == (n / t) * t + n % t;
    assert d * t == r - n % t;
    SmallMultiple(d, t);
  }

  lemma SmallMultiple(d: int, t: int)
    requires 0 < t && -t < d * t < t
    ensures d == 0
  {
    assert d >= 1 ==> (d - 1) * t >= 0;
    assert d <= -1 ==> (d + 1) * t <= 0;
  }

  /** Of any first `n` numbers, position `i` gets its weight once per full round, plus its share of the rest. */
  lemma {:induction false} CountChoosing(ws: seq<nat>, i: nat, n: nat)
    requires Total(ws) > 0 && i < |ws|
    ensures |Choosing(ws, i, n)| == n / Total(ws) * ws[i] + Overlap(n % Total(ws), Cursor(ws, i), Cursor(ws, i) + ws[i])
  {
    var t, low, high := Total(ws), Cursor(ws, i), Cursor(ws, i) + ws[i];
    OwnedIsBelowTotal(ws, i);
    if n == 0 {
      assert Choosing(ws, i, 0) == {};
    } else {
      CountChoosing(ws, i, n - 1);
      NextQuotient(n - 1, t);
      var before := Choosing(ws, i, n - 1);
      if low <= (n - 1) % t < high {
        assert Choosing(ws, i, n) == before + {n - 1};
      } else {
        assert Choosing(ws, i, n) == before;
      }
      if (n - 1) % t == t - 1 {
        OneMoreRound((n - 1) / t, ws[i]);
      }
    }
  }

  lemma OneMoreRound(q: nat, w: nat)
    ensures (q + 1) * w == q * w + w
  {
  }

  lemma LimitIsWholeRounds(t: nat)
    requires 0 < t
    ensures Limit(t) == RANGE / t * t && Limit(t) / t == RANGE / t && Limit(t) % t == 0
  {
    assert RANGE == RANGE / t * t + RANGE % t;
    Divide(Limit(t), t, RANGE / t, 0);
  }

  /** Main result: the draw is exactly fair. Among the accepted hashes each candidate is chosen by the same
      number of them per unit of weight. */
  lemma RejectionSamplingIsExact(ws: seq<nat>, i: nat)
    requires 0 < Total(ws) && i < |ws|
    ensures |Choosing(ws, i, Limit(Total(ws)))| == RANGE / Total(ws) * ws[i]
  {
    LimitIsWholeRounds(Total(ws));
    CountChoosing(ws, i, Limit(Total(ws)));
  }

  /** The draw selects position `i` exactly when the first hash below the limit is one of those counted for `i`. */
  lemma DrawnByItsShare(hash: nat -> Sample, ws: seq<nat>, i: nat)
    requires 0 < Total(ws) <= MAX_SAFE
    ensures (exists draw :: IsDraw(hash, ws, draw) && draw.Selected? && draw.position == i) <==>
      exists c :: Accepts(hash, Total(ws), c) && hash(c) in Choosing(ws, i, Limit(Total(ws)))
  {
    if c :| Accepts(hash, Total(ws), c) && hash(c) in Choosing(ws, i, Limit(Total(ws))) {
      assert IsDraw(hash, ws, Selected(i, hash(c) % Total(ws), c));
    }
  }

  predicate Between(low: nat, s: nat, high: nat) {
    low <= s < high
  }

  ghost function Interval(low: nat, high: nat): set<nat> {
    set s: nat | s < high && Between(low, s, high)
  }

  lemma {:induction false} IntervalCount(low: nat, high: nat)
    requires low <= high
    ensures |Interval(low, high)| == high - low
    decreases high
  {
    if low == high {
      assert Interval(low, high) == {};
    } else {
      IntervalCount(low, high - 1);
      assert Interval(low, high) == Interval(low, high - 1) + {high - 1};
    }
  }

  /** Fewer hashes than the total weight are ever rejected, and each accepted one has exactly one owner. */
  lemma FewRejected(ws: seq<nat>, s: Sample)
    requires 0 < Total(ws)
    ensures |Interval(Limit(Total(ws)), RANGE)| == RANGE % Total(ws) < Total(ws)
    ensures exists i :: Owns(ws, i, s % Total(ws))
    ensures forall i, j :: Owns(ws, i, s % Total(ws)) && Owns(ws, j, s % Total(ws)) ==> i == j
  {
    IntervalCount(Limit(Total(ws)), RANGE);
    CursorEnd(ws);
    var i := FindOwner(ws, s % Total(ws), |ws|);
    forall a, b | Owns(ws, a, s % Total(ws)) && Owns(ws, b, s % Total(ws)) ensures a == b {
      OwnerIsUnique(ws, a, b, s % Total(ws));
    }
  }

  lemma {:induction false} FindOwner(ws: seq<nat>, x: nat, n: nat) returns (i: nat)
    requires n <= |ws| && x < Cursor(ws, n)
    ensures Owns(ws, i, x)
    decreases n
  {
    CursorStep(ws, n - 1);
    if x >= Cursor(ws, n - 1) { i := n - 1; } else { i := FindOwner(ws, x, n - 1); }
  }

  // ----------------------------------------------------- allocation without rejection

  /** `deterministicAllocation` (full digest) and `experiment-allocate` (twelve digits): one hash, one remainder. */
  method Allocate(hash: Sample, ws: seq<nat>) returns (resolved: bool, position: nat)
    requires forall i :: 0 <= i < |ws| ==> ws[i] >= 1
    ensures resolved <==> ws != []
    ensures resolved ==> Total(ws) > 0 && Owns(ws, position, hash % Total(ws))
  {
    if ws == [] {
      return false, 0;
    }
    var total := 0;
    var k := 0;
    while k < |ws|
      invariant 0 <= k <= |ws| && total == Cursor(ws, k)
    {
      CursorStep(ws, k);
      total := total + ws[k];
      k := k + 1;
    }
    CursorEnd(ws);
    assert total > 0;
    resolved, position := Scan(ws, hash % total);
  }

  /** Of the `total` buckets, position `i` gets exactly its weight. */
  lemma BucketsMatchWeights(ws: seq<nat>, i: nat)
    requires Total(ws) > 0 && i < |ws|
    ensures |Choosing(ws, i, Total(ws))| == ws[i]
  {
    Divide(Total(ws), Total(ws), 1, 0);
    CountChoosing(ws, i, Total(ws));
  }

  ghost predicate Proportional(ws: seq<nat>, n: nat)
    requires Total(ws) > 0
  {
    forall i :: 0 <= i < |ws| ==> |Choosing(ws, i, n)| * Total(ws) == n * ws[i]
  }

  /** Main result: without rejection the split over `n` equally likely hashes is exact if and only if the total
      divides `n`, or there is nothing to split. */
  lemma AllocationIsExactIff(ws: seq<nat>, n: nat)
    requires ws != [] && forall i :: 0 <= i < |ws| ==> ws[i] >= 1
    ensures Total(ws) > 0
    ensures Proportional(ws, n) <==> n % Total(ws) == 0 || |ws| == 1
  {
    var t := Total(ws);
    OwnedIsBelowTotal(ws, 0);
    if n % t == 0 || |ws| == 1 {
      forall i | 0 <= i < |ws| ensures |Choosing(ws, i, n)| * t == n * ws[i] {
        CountChoosing(ws, i, n);
        if n % t == 0 { Exact(n, t, ws[i]); } else { OnlyVariant(ws, n); }
      }
    } else {
      var last := |ws| - 1;
      CountChoosing(ws, last, n);
      OwnedIsBelowTotal(ws, last);
      CursorStep(ws, last);
      CursorEnd(ws);
      CursorStep(ws, 0);
      CursorMonotone(ws, 1, last);
      LastIsUneven(n, t, ws[last], |Choosing(ws, last, n)|);
    }
  }

  lemma Exact(n: nat, t: nat, w: nat)
    requires t > 0 && n % t == 0
    ensures n / t * w * t == n * w
  {
    var q := n / t;
    assert n == q * t;
    assert q * w * t == q * t * w;
  }

  lemma OnlyVariant(ws: seq<nat>, n: nat)
    requires |ws| == 1 && ws[0] >= 1
    ensures Total(ws) == ws[0] && |Choosing(ws, 0, n)| == n
  {
    CursorStep(ws, 0);
    CursorEnd(ws);
    IntervalCount(0, n);
    assert Choosing(ws, 0, n) == Interval(0, n);
  }

  lemma LastIsUneven(n: nat, t: nat, w: nat, count: nat)
    requires 1 <= w < t && n % t != 0
    requires count == n / t * w + Overlap(n % t, t - w, t)
    ensures count * t != n * w
  {
    var q, r := n / t, n % t;
    var o := Overlap(r, t - w, t);
    assert n == q * t + r;
    assert q * w * t == q * t * w;
    assert count * t == q * w * t + o * t;
    assert n * w == q * t * w + r * w;
    UnevenShare(r, t, w);
  }

  lemma UnevenShare(r: nat, t: nat, w: nat)
    requires 1 <= w < t && 0 < r < t
    ensures Overlap(r, t - w, t) * t != r * w
  {
    ProductPositive(r, w);
    var a, b := t - w, t - r;
    ProductPositive(a, b);
    ShortBy(t, a, b);
  }

  lemma ProductPositive(x: nat, y: nat)
    requires 0 < x && 0 < y
    ensures 0 < x * y
  {
  }

  lemma ShortBy(t: int, a: int, b: int)
    ensures (t - b - a) * t == (t - b) * (t - a) - a * b
  {
    assert (t - b) * (t - a) == t * (t - a) - b * (t - a);
    assert t * (t - a) == t * t - t * a;
    assert b * (t - a) == b * t - b * a;
    assert (t - b - a) * t == t * t - b * t - a * t;
  }
}
