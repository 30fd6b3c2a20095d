/** Download progress in 64-bit arithmetic, and the watch that tells a stalled download from a slow one. */
module Progress {

  const U64_MAX: nat := 0xFFFF_FFFF_FFFF_FFFF

  type u64 = n: nat | n <= 0xFFFF_FFFF_FFFF_FFFF

  // ----- Division, by what it guarantees -----

  function Div(a: nat, b: nat): (q: nat)
    requires b > 0
    ensures q * b <= a < q * b + b
  {
    assert a == (a / b) * b + a % b;
    assert 0 <= a / b by { if a / b < 0 { MulLe(a / b, -1, b); } }
    a / b
  }

  lemma {:induction false} MulLe(x: int, y: int, z: int)
    requires x <= y && z >= 0
    ensures x * z <= y * z
  {
  }

  /** A quotient is the largest factor that does not exceed the dividend. */
  lemma {:induction false} DivLargest(a: nat, b: nat, q: nat)
    requires b > 0
    ensures q <= Div(a, b) <==> q * b <= a
  {
    hide Div;
    if q <= Div(a, b) {
      MulLe(q, Div(a, b), b);
    } else {
      MulLe(Div(a, b) + 1, q, b);
      Distribute(Div(a, b), b);
    }
  }

  lemma {:induction false} Distribute(q: int, b: int)
    ensures (q + 1) * b == q * b + b
  {
  }

  lemma {:induction false} DivMonotone(a: nat, c: nat, b: nat)
    requires b > 0 && a <= c
    ensures Div(a, b) <= Div(c, b)
  {
    hide Div;
    DivLargest(c, b, Div(a, b));
  }

  lemma {:induction false} DivShrinks(a: nat, b: nat)
    requires b > 0
    ensures Div(a, b) <= a
  {
    hide Div;
    DivLargest(a, b, a + 1);
    MulLe(1, b, a + 1);
  }

  // ----- Progress -----

  /** The largest count whose hundredfold still fits 64 bits. */
  const SMALL: nat := 184467440737095516

  lemma {:induction false} SmallLimit()
    ensures Div(U64_MAX, 100) == SMALL
  {
  }

  /** The exact whole percentage. */
  function Exact(received: nat, total: nat): nat requires total > 0 { Div(received * 100, total) }

  /** The quotient by a hundredth of the total, used for very large counts. */
  function Coarse(received: nat, total: nat): nat requires total >= 100 { Div(received, Div(total, 100)) }

  function Percent(received: u64, total: u64): nat
  {
    if total == 0 then 0
    else if received >= total then 100
    else
      var r: nat, t: nat := received, total;
      var whole := if r > SMALL then Coarse(r, t) else Exact(r, t);
      if whole < 99 then whole else 99
  }

  /** Every intermediate value is a 64-bit number, and nothing is divided by zero. */
  method ProgressPercent(received: u64, total: u64) returns (percent: nat)
    ensures percent == Percent(received, total)
  {
    hide Div;
    if total == 0 { return 0; }
    if received >= total { return 100; }
    SmallLimit();
    var whole: u64;
    if received > SMALL {
      HundredthPositive(total);
      var step: u64 := Quotient(total, 100);
      whole := Quotient(received, step);
    } else {
      var product: u64 := Times100(received);
      whole := Quotient(product, total);
    }
    percent := if whole < 99 then whole else 99;
  }

  lemma {:induction false} HundredthPositive(total: nat)
    requires total >= 100
    ensures Div(total, 100) >= 1
  {
    DivLargest(total, 100, 1);
  }

  /** 64-bit division. */
  method Quotient(a: u64, b: u64) returns (q: u64)
    requires b != 0
    ensures q as nat == Div(a, b)
  {
    DivShrinks(a, b);
    q := Div(a, b);
  }

  /** 64-bit multiplication; the bound keeps it from overflowing. */
  method Times100(a: u64) returns (p: u64)
    requires a <= SMALL
    ensures p as nat == (a as nat) * 100
  {
    var x: nat := a;
    p := x * 100;
  }

  // ----- What the percentage means -----

  lemma {:induction false} ExactBelow100(r: nat, t: nat)
    requires r < t
    ensures Exact(r, t) <= 99
  {
    hide Div;
    DivLargest(r * 100, t, 100);
  }

  /** The coarse quotient is the exact percentage or one more. */
  lemma {:induction false} CoarseClose(r: nat, t: nat)
    requires 10000 <= r < t
    ensures Exact(r, t) <= Coarse(r, t) <= Exact(r, t) + 1
  {
    hide Div;
    var h, e, c := Div(t, 100), Exact(r, t), Coarse(r, t);
    // h * 100 <= t < h * 100 + 100 and h >= 100
    DivLargest(t, 100, 100);
    ExactBelow100(r, t);
    // e * t <= 100 r, so 100 e h <= e t <= 100 r, so e h <= r
    MulLe(h * 100, t, e);
    Rearrange(h, e);
    DivLargest(r, h, e);
    // 100 r < (e + 1) t < (e + 1)(100 h + 100), so r < (e + 1)(h + 1) <= (e + 2) h as e + 1 <= 100 <= h
    Distribute(e, t);
    MulLe(t, h * 100 + 100, e + 1);
    Rearrange(h + 1, e + 1);
    assert r < (e + 1) * (h + 1);
    Expand(e, h);
    DivLargest(r, h, e + 2);
  }

  lemma {:induction false} Rearrange(h: int, e: int)
    ensures h * 100 * e == 100 * (e * h) && e * h == h * e
  {
  }

  lemma {:induction false} Expand(e: int, h: int)
    ensures (e + 1) * (h + 1) == (e + 2) * h + (e + 1) - h
  {
  }

  /** 100 is reached exactly when a known total has been received. */
  lemma {:induction false} HundredMeansDone(received: u64, total: u64)
    ensures Percent(received, total) <= 100 && (total == 0 || received == 0 ==> Percent(received, total) == 0)
    ensures Percent(received, total) == 100 <==> total > 0 && received >= total
  {
  }

  /** Below that, the shown value is the exact whole percentage, or one more for huge counts. */
  lemma {:induction false} WithinOne(received: u64, total: u64)
    requires received < total
    ensures Exact(received, total) <= Percent(received, total) <= Exact(received, total) + 1
    ensures received <= SMALL ==> Percent(received, total) == Exact(received, total)
  {
    hide Div;
    ExactBelow100(received, total);
    if received > SMALL { CoarseClose(received, total); }
  }

  /** More bytes never show less progress, also across the switch between the two formulas. */
  lemma {:induction false} Monotone(a: u64, b: u64, total: u64)
    requires a <= b
    ensures Percent(a, total) <= Percent(b, total)
  {
    hide Div;
    if 0 < total && b < total {
      DivMonotone(a * 100, b * 100, total);
      ExactBelow100(b, total);
      if b > SMALL {
        CoarseClose(b, total);
        HundredthPositive(total);
        DivMonotone(a, b, Div(total, 100));
      }
    }
  }

  // ----- The stall watch -----

  /** One poll: the bytes received so far and the time, in milliseconds. */
  datatype Poll = Poll(received: nat, now: int)

  /** The byte count before the first poll is 0. */
  function Received(polls: seq<Poll>): nat { if polls == [] then 0 else polls[|polls| - 1].received }

  /** When the byte count last changed: the latest poll that differs from the one before it. */
  function LastChange(polls: seq<Poll>, start: int): int
  {
    if polls == [] then start
    else
      var front := polls[..|polls| - 1];
      if Received(polls) != Received(front) then polls[|polls| - 1].now else LastChange(front, start)
  }

  class StallWatch {
    const limit: int
    var lastChange: int
    var received: nat

    ghost predicate Watches(polls: seq<Poll>, start: int)
      reads this
    {
      received == Received(polls) && lastChange == LastChange(polls, start)
    }

    constructor (start: int, limit: int)
      ensures Watches([], start) && this.limit == limit
    {
      this.limit := limit;
      lastChange := start;
      received := 0;
    }

    /** Records one poll; true once the count has stood still for longer than the limit. */
    method Stalled(count: nat, now: int, ghost polls: seq<Poll>, ghost start: int) returns (stalled: bool)
      requires Watches(polls, start)
      modifies this
      ensures Watches(polls + [Poll(count, now)], start)
      ensures stalled <==> count == Received(polls) && now - LastChange(polls, start) > limit
    {
      assert (polls + [Poll(count, now)])[..|polls|] == polls;
      if count != received {
        received := count;
        lastChange := now;
        return false;
      }
      return now - lastChange > limit;
    }
  }

  /** The count before poll `k`, 0 before the first. */
  function Before(polls: seq<Poll>, k: nat): nat
    requires k <= |polls|
  {
    if k == 0 then 0 else polls[k - 1].received
  }

  /** The last change is the poll after which the count has stood still, or the start if it never moved from 0. */
  lemma {:induction false} LastChangeMeans(polls: seq<Poll>, start: int) returns (k: nat)
    ensures k <= |polls| && LastChange(polls, start) == if k == 0 then start else polls[k - 1].now
    ensures forall i :: k <= i < |polls| ==> polls[i].received == Before(polls, k)
    ensures k > 0 ==> Before(polls, k) != Before(polls, k - 1)
    decreases |polls|
  {
    if polls == [] {
      k := 0;
    } else {
      var front := polls[..|polls| - 1];
      if Received(polls) != Received(front) {
        k := |polls|;
      } else {
        k := LastChangeMeans(front, start);
        assert Received(front) == Before(polls, k);
      }
    }
  }

  /** A reported stall: every poll in more than the last `limit` milliseconds saw the same count. */
  lemma {:induction false} StallMeansStill(polls: seq<Poll>, start: int, i: nat)
    requires i < |polls| && polls[i].now > LastChange(polls, start)
    requires forall a, b :: 0 <= a <= b < |polls| ==> polls[a].now <= polls[b].now
    ensures polls[i].received == Received(polls)
    decreases |polls|
  {
    var front := polls[..|polls| - 1];
    if i < |polls| - 1 {
      if Received(polls) == Received(front) {
        StallMeansStill(front, start, i);
      }
    }
  }
}
