/** When a request is signalled: the 32-bit law of ClockRun.Expected against the time that was asked
    for, counted in milliseconds since the start without wrapping. */
module ClockTiming {
  import opened Words
  import opened ClockRun

  // ---------- the time asked for ----------

  /** Number of clock periods that cover `ms` milliseconds. */
  function CeilDiv(ms: nat, tickMs: nat): nat
    requires tickMs > 0
  {
    (ms + tickMs - 1) / tickMs
  }

  function Max(a: int, b: int): int { if a > b then a else b }

  /** The distance, in clock periods, between two signals of a periodic timeout. */
  function Gap(r: Request, tickMs: nat): nat
    requires tickMs > 0
  {
    Max(1, CeilDiv(r.period, tickMs))
  }

  /** The clock period whose sweep should give signal number `k` of a request. */
  function FireTick(r: Request, tickMs: nat, k: nat): nat
    requires tickMs > 0
  {
    r.tick + (if r.mid then CeilDiv(r.period, tickMs) else Gap(r, tickMs)) + k * Gap(r, tickMs)
  }

  /** A request that has been signalled in the clock periods `fires` was armed in this one, ... */
  function ArmTick(r: Request, fires: seq<nat>): nat {
    if fires == [] then r.tick else fires[|fires| - 1]
  }

  /** ... is looked at from this one on, ... */
  function NextSweep(r: Request, fires: seq<nat>): nat {
    if fires == [] then FirstSweep(r) else fires[|fires| - 1] + 1
  }

  /** ... is due at this time, ... */
  function DueMs(r: Request, tickMs: nat, fires: seq<nat>): nat {
    ArmTick(r, fires) * tickMs + r.period
  }

  /** ... and should be signalled by the first sweep that has reached it. */
  function NextTick(r: Request, tickMs: nat, fires: seq<nat>): nat
    requires tickMs > 0
  {
    if fires == [] then FireTick(r, tickMs, 0) else fires[|fires| - 1] + Gap(r, tickMs)
  }

  lemma Distribute(a: int, b: int, k: int)
    ensures (a + b) * k == a * k + b * k
  {
  }

  lemma TimesMonotone(a: nat, b: nat, k: nat)
    requires a <= b
    ensures a * k <= b * k
  {
  }

  lemma CeilBounds(ms: nat, tickMs: nat)
    requires tickMs > 0
    ensures CeilDiv(ms, tickMs) * tickMs - tickMs < ms <= CeilDiv(ms, tickMs) * tickMs
  {
    var x := ms + tickMs - 1;
    assert x == (x / tickMs) * tickMs + x % tickMs;
  }

  /** A period of `ms` milliseconds counted from clock period `m` is over at period `n` exactly
      when `CeilDiv` periods have passed. */
  lemma ReachedIff(m: nat, n: nat, ms: nat, tickMs: nat)
    requires tickMs > 0
    ensures m * tickMs + ms <= n * tickMs <==> m + CeilDiv(ms, tickMs) <= n
  {
    var c := CeilDiv(ms, tickMs);
    CeilBounds(ms, tickMs);
    Distribute(m, c, tickMs);
    Distribute(m + c, -1, tickMs);
    hide CeilDiv;
    if m + c <= n {
      TimesMonotone(m + c, n, tickMs);
    } else {
      TimesMonotone(n, m + c - 1, tickMs);
    }
  }

  /** NextTick is the first sweep from NextSweep on that has reached DueMs, and at most one clock
      period after it. */
  lemma NextTickIsFirst(r: Request, tickMs: nat, fires: seq<nat>)
    requires tickMs > 0
    ensures var s, n, d := NextSweep(r, fires), NextTick(r, tickMs, fires), DueMs(r, tickMs, fires);
            && s <= n && d <= n * tickMs <= d + tickMs
            && forall m :: s <= m < n ==> m * tickMs < d
  {
    var a, s, n := ArmTick(r, fires), NextSweep(r, fires), NextTick(r, tickMs, fires);
    var c := CeilDiv(r.period, tickMs);
    ReachedIff(a, n, r.period, tickMs);
    assert n == a + c || (n == a + 1 && c == 0);
    CeilBounds(r.period, tickMs);
    Distribute(a, c, tickMs);
    Distribute(a, 1, tickMs);
    hide CeilDiv;
    forall m | s <= m < n ensures m * tickMs < DueMs(r, tickMs, fires) {
      ReachedIff(a, m, r.period, tickMs);
    }
  }

  // ---------- between two wraps of the clock ----------

  function Epoch(x: nat): nat { x / WRAP }

  lemma SameEpoch(x: nat, d: nat)
    requires Epoch(x) == Epoch(d)
    ensures x % WRAP >= d % WRAP <==> x >= d
  {
  }

  /** Armed at time `t` for `d`, and looked at at time `x` before the clock has wrapped towards `d`. */
  lemma EpochBefore(t: nat, x: nat, d: nat)
    requires t <= x && d < t + WRAP && Epoch(x) < Epoch(d)
    ensures x % WRAP >= d % WRAP && x < d
  {
  }

  /** Looked at late, by less than the clock wraps, but after it has wrapped. */
  lemma EpochAfter(x: nat, d: nat, late: nat)
    requires d <= x <= d + late && late < WRAP && Epoch(x) > Epoch(d)
    ensures x % WRAP < d % WRAP
  {
  }

  lemma EpochMonotone(x: nat, y: nat)
    requires x <= y
    ensures Epoch(x) <= Epoch(y)
  {
  }

  /** The clock does not wrap between the next sweep, the time due, and the sweep that should signal. */
  predicate OnTime(r: Request, tickMs: nat, fires: seq<nat>)
    requires tickMs > 0
  {
    Epoch(NextSweep(r, fires) * tickMs) == Epoch(DueMs(r, tickMs, fires)) == Epoch(NextTick(r, tickMs, fires) * tickMs)
  }

  /** The clock wraps between the next sweep and the time due. */
  predicate Early(r: Request, tickMs: nat, fires: seq<nat>) {
    Epoch(NextSweep(r, fires) * tickMs) < Epoch(DueMs(r, tickMs, fires))
  }

  /** The clock wraps between the time due and the sweep that should signal. */
  predicate Missed(r: Request, tickMs: nat, fires: seq<nat>)
    requires tickMs > 0
  {
    && Epoch(NextSweep(r, fires) * tickMs) >= Epoch(DueMs(r, tickMs, fires))
    && Epoch(NextTick(r, tickMs, fires) * tickMs) > Epoch(DueMs(r, tickMs, fires))
  }

  lemma EarlyOrOnTimeOrMissed(r: Request, tickMs: nat, fires: seq<nat>)
    requires tickMs > 0
    ensures OnTime(r, tickMs, fires) <==> !Early(r, tickMs, fires) && !Missed(r, tickMs, fires)
  {
    NextTickIsFirst(r, tickMs, fires);
    EpochMonotone(DueMs(r, tickMs, fires), NextTick(r, tickMs, fires) * tickMs);
    TimesMonotone(NextSweep(r, fires), NextTick(r, tickMs, fires), tickMs);
    EpochMonotone(NextSweep(r, fires) * tickMs, NextTick(r, tickMs, fires) * tickMs);
    hide DueMs, NextSweep, NextTick, Epoch;
  }

  /** When the 32-bit sum of a set request does not wrap, the request is on time if and only if the
      clock does not wrap before the sweep that should signal it; otherwise it is missed. */
  lemma SumFits(r: Request, tickMs: nat)
    requires tickMs > 0 && Shown(r.tick, tickMs) + r.period < WRAP
    ensures OnTime(r, tickMs, []) <==> FireTick(r, tickMs, 0) * tickMs < (Epoch(r.tick * tickMs) + 1) * WRAP
    ensures Missed(r, tickMs, []) <==> !OnTime(r, tickMs, [])
  {
    var d, s, n := DueMs(r, tickMs, []), FirstSweep(r), FireTick(r, tickMs, 0);
    NextTickIsFirst(r, tickMs, []);
    TimesMonotone(r.tick, s, tickMs);
    TimesMonotone(s, n, tickMs);
    EpochMonotone(r.tick * tickMs, s * tickMs);
    EpochMonotone(s * tickMs, n * tickMs);
    EpochMonotone(d, n * tickMs);
    EarlyOrOnTimeOrMissed(r, tickMs, []);
    hide FireTick;
  }

  lemma EarlySweep(r: Request, tickMs: nat, fires: seq<nat>)
    requires Early(r, tickMs, fires)
    ensures Shown(NextSweep(r, fires), tickMs) >= Armed(r, tickMs, fires)
    ensures NextSweep(r, fires) * tickMs < DueMs(r, tickMs, fires)
  {
    TimesMonotone(ArmTick(r, fires), NextSweep(r, fires), tickMs);
    EpochBefore(ArmTick(r, fires) * tickMs, NextSweep(r, fires) * tickMs, DueMs(r, tickMs, fires));
  }

  /** Without an early signal no sweep before the one that should signal does. */
  lemma QuietSweep(r: Request, tickMs: nat, fires: seq<nat>, m: nat)
    requires tickMs > 0 && !Early(r, tickMs, fires) && NextSweep(r, fires) <= m < NextTick(r, tickMs, fires)
    ensures Shown(m, tickMs) < Armed(r, tickMs, fires)
  {
    var s, d := NextSweep(r, fires), DueMs(r, tickMs, fires);
    NextTickIsFirst(r, tickMs, fires);
    TimesMonotone(s, m, tickMs);
    EpochMonotone(s * tickMs, m * tickMs);
    EpochMonotone(m * tickMs, d);
    SameEpoch(m * tickMs, d);
  }

  lemma DueSweep(r: Request, tickMs: nat, fires: seq<nat>)
    requires 0 < tickMs < WRAP && !Early(r, tickMs, fires)
    ensures Shown(NextTick(r, tickMs, fires), tickMs) >= Armed(r, tickMs, fires) <==> OnTime(r, tickMs, fires)
  {
    var n, d := NextTick(r, tickMs, fires), DueMs(r, tickMs, fires);
    NextTickIsFirst(r, tickMs, fires);
    EarlyOrOnTimeOrMissed(r, tickMs, fires);
    if OnTime(r, tickMs, fires) {
      SameEpoch(n * tickMs, d);
    } else {
      EpochAfter(n * tickMs, d, tickMs);
    }
  }

  // ---------- what a request gets ----------

  lemma {:induction false} ExpectedGrows(r: Request, tickMs: nat, m: int, later: int)
    requires m <= later
    ensures Expected(r, tickMs, m) <= Expected(r, tickMs, later)
    decreases later - m
  {
    if m < later {
      ExpectedGrows(r, tickMs, m, later - 1);
    }
  }

  /** Between two signals nothing is added. */
  lemma {:induction false} NothingUntil(r: Request, tickMs: nat, m: int, later: int)
    requires m <= later && FirstSweep(r) <= m + 1
    requires forall j {:trigger Shown(j, tickMs)} :: m < j <= later ==> Shown(j, tickMs) < Armed(r, tickMs, Expected(r, tickMs, m))
    ensures Expected(r, tickMs, later) == Expected(r, tickMs, m)
    decreases later - m
  {
    if m < later {
      NothingUntil(r, tickMs, m, later - 1);
    }
  }

  /** `m` is where a request waits for its first signal, or has just been given one. */
  predicate JustArmed(r: Request, tickMs: nat, m: int) {
    var fires := Expected(r, tickMs, m);
    if fires == [] then m == FirstSweep(r) - 1 else r.periodic && fires[|fires| - 1] == m
  }

  /** The next signal of a request that is left alone, in terms of the time it asked for: it comes
      with the first sweep that has reached that time if and only if the clock does not wrap in
      between. Otherwise it comes at the very next sweep, too early, or not with the sweep it
      should come with nor with any before. */
  lemma NextSignal(r: Request, tickMs: nat, m: int)
    requires 0 < tickMs < WRAP && JustArmed(r, tickMs, m)
    ensures var fires := Expected(r, tickMs, m);
            var s, n := NextSweep(r, fires), NextTick(r, tickMs, fires);
            && (OnTime(r, tickMs, fires) <==>
                  Expected(r, tickMs, n - 1) == fires && Expected(r, tickMs, n) == fires + [n])
            && (Early(r, tickMs, fires) ==>
                  Expected(r, tickMs, s) == fires + [s] && s * tickMs < DueMs(r, tickMs, fires))
            && (Missed(r, tickMs, fires) ==> Expected(r, tickMs, n) == fires)
  {
    var fires := Expected(r, tickMs, m);
    EarlyOrOnTimeOrMissed(r, tickMs, fires);
    hide OnTime, Early, Missed, Expected, NextSweep, NextTick;
    if Early(r, tickMs, fires) {
      EarlySignal(r, tickMs, m);
    } else {
      CalmSignal(r, tickMs, m);
    }
  }

  lemma EarlySignal(r: Request, tickMs: nat, m: int)
    requires tickMs > 0 && JustArmed(r, tickMs, m) && Early(r, tickMs, Expected(r, tickMs, m))
    ensures var fires := Expected(r, tickMs, m);
            var s, n := NextSweep(r, fires), NextTick(r, tickMs, fires);
            && Expected(r, tickMs, s) == fires + [s] && s * tickMs < DueMs(r, tickMs, fires)
            && Expected(r, tickMs, n - 1) != fires
  {
    var fires := Expected(r, tickMs, m);
    var s, n := NextSweep(r, fires), NextTick(r, tickMs, fires);
    EarlySweep(r, tickMs, fires);
    NextTickIsFirst(r, tickMs, fires);
    hide NextTick, DueMs, Early, Shown, Armed;
    TimesApart(s, n, tickMs);
    ExpectedNext(r, tickMs, s);
    ExpectedGrows(r, tickMs, s, n - 1);
  }

  lemma CalmSignal(r: Request, tickMs: nat, m: int)
    requires 0 < tickMs < WRAP && JustArmed(r, tickMs, m) && !Early(r, tickMs, Expected(r, tickMs, m))
    ensures var fires := Expected(r, tickMs, m);
            var n := NextTick(r, tickMs, fires);
            && Expected(r, tickMs, n - 1) == fires
            && Expected(r, tickMs, n) == if OnTime(r, tickMs, fires) then fires + [n] else fires
  {
    var fires := Expected(r, tickMs, m);
    var s, n := NextSweep(r, fires), NextTick(r, tickMs, fires);
    var last := n as int - 1;
    NextTickIsFirst(r, tickMs, fires);
    assert s == m + 1 && FirstSweep(r) <= s;
    hide NextTick, DueMs, OnTime, Early, Shown, Armed;
    forall j | m < j <= last ensures Shown(j, tickMs) < Armed(r, tickMs, fires) {
      QuietSweep(r, tickMs, fires, j);
    }
    NothingUntil(r, tickMs, m, last);
    DueSweep(r, tickMs, fires);
    ExpectedNext(r, tickMs, n);
  }

  lemma TimesApart(a: nat, b: nat, k: nat)
    requires a * k < b * k
    ensures a < b
  {
    if b <= a {
      TimesMonotone(b, a, k);
    }
  }

  /** Once a one-shot has been signalled nothing is added. */
  lemma {:induction false} OneShotOnce(r: Request, tickMs: nat, n: nat, m: int)
    requires !r.periodic && n <= m && Expected(r, tickMs, n) == [n]
    ensures Expected(r, tickMs, m) == [n]
    decreases m - n
  {
    if n < m {
      OneShotOnce(r, tickMs, n, m - 1);
    }
  }

  // ---------- the closed form, while the clock does not wrap ----------

  /** The signals up to clock period `m` are at FireTick 0, 1, 2, ..., none missing. */
  ghost predicate ClosedForm(r: Request, tickMs: nat, m: int, fires: seq<nat>)
    requires tickMs > 0
  {
    && (forall k :: 0 <= k < |fires| ==> fires[k] == FireTick(r, tickMs, k))
    && (fires != [] ==> FireTick(r, tickMs, |fires| - 1) <= m)
    && (r.periodic || fires == [] ==> m < FireTick(r, tickMs, |fires|))
    && (r.periodic || |fires| <= 1)
  }

  lemma NextFireTick(r: Request, tickMs: nat, k: nat)
    requires tickMs > 0
    ensures FireTick(r, tickMs, k + 1) == FireTick(r, tickMs, k) + Gap(r, tickMs)
  {
    assert (k + 1) * Gap(r, tickMs) == k * Gap(r, tickMs) + Gap(r, tickMs);
  }

  lemma NoWrapEarlier(r: Request, tickMs: nat, m: nat)
    requires r.tick < m && Epoch(r.tick * tickMs) == Epoch(m * tickMs + r.period)
    ensures Epoch(r.tick * tickMs) == Epoch((m - 1) * tickMs + r.period)
  {
    Distribute(m, -1, tickMs);
    TimesMonotone(r.tick, m - 1, tickMs);
  }

  /** Within one epoch the 32-bit comparison says what it should. */
  lemma SweepDecides(r: Request, tickMs: nat, fires: seq<nat>, m: nat)
    requires tickMs > 0 && r.tick <= ArmTick(r, fires) <= m
    requires Epoch(r.tick * tickMs) == Epoch(m * tickMs + r.period)
    ensures Shown(m, tickMs) >= Armed(r, tickMs, fires) <==> ArmTick(r, fires) + CeilDiv(r.period, tickMs) <= m
  {
    var a := ArmTick(r, fires);
    TimesMonotone(r.tick, a, tickMs);
    TimesMonotone(a, m, tickMs);
    EpochMonotone(r.tick * tickMs, m * tickMs);
    EpochMonotone(m * tickMs, m * tickMs + r.period);
    EpochMonotone(r.tick * tickMs, a * tickMs + r.period);
    EpochMonotone(a * tickMs + r.period, m * tickMs + r.period);
    SameEpoch(m * tickMs, a * tickMs + r.period);
    ReachedIff(a, m, r.period, tickMs);
  }

  lemma {:induction false} NoWrapClosedForm(r: Request, tickMs: nat, m: int)
    requires tickMs > 0 && Epoch(r.tick * tickMs) == Epoch(Max(m, r.tick) * tickMs + r.period)
    ensures ClosedForm(r, tickMs, m, Expected(r, tickMs, m))
    decreases m - FirstSweep(r) + 1
  {
    if m >= FirstSweep(r) {
      var before := Expected(r, tickMs, m - 1);
      if r.tick < m {
        NoWrapEarlier(r, tickMs, m);
      }
      NoWrapClosedForm(r, tickMs, m - 1);
      hide Expected, ClosedForm, CeilDiv, Epoch, Shown, Armed;
      ClosedFormNext(r, tickMs, m, before);
      SweepDecides(r, tickMs, before, m);
      ExpectedNext(r, tickMs, m);
    }
  }

  /** One more sweep, which signals exactly if the period is over. */
  lemma ClosedFormNext(r: Request, tickMs: nat, m: nat, before: seq<nat>)
    requires tickMs > 0 && FirstSweep(r) <= m && ClosedForm(r, tickMs, m - 1, before)
    ensures r.tick <= ArmTick(r, before) <= m
    ensures ClosedForm(r, tickMs, m,
              if (before == [] || r.periodic) && ArmTick(r, before) + CeilDiv(r.period, tickMs) <= m then before + [m] else before)
  {
    NextFireTick(r, tickMs, |before|);
    if before != [] {
      NextFireTick(r, tickMs, |before| - 1);
      FireTickAfter(r, tickMs, |before| - 1);
    }
    hide CeilDiv;
  }

  lemma FireTickAfter(r: Request, tickMs: nat, k: nat)
    requires tickMs > 0
    ensures r.tick <= FireTick(r, tickMs, k)
  {
    TimesMonotone(0, k, Gap(r, tickMs));
  }

  // ---------- requests that are never signalled ----------

  /** The largest power of two that divides `x`. */
  function Twos(x: nat): nat
    requires x > 0
  {
    if x % 2 == 1 then 1 else 2 * Twos(x / 2)
  }

  lemma {:induction false} TwosSplit(x: nat, bits: nat) returns (q: nat, i: nat)
    requires 0 < x < Pow2(bits)
    ensures q % 2 == 1 && i < bits && Twos(x) == Pow2(i) && x == Twos(x) * q
  {
    if x % 2 == 1 {
      q, i := x, 0;
    } else {
      q, i := TwosSplit(x / 2, bits - 1);
      i := i + 1;
      assert x == 2 * (Twos(x / 2) * q);
    }
  }

  /** An odd number has an inverse modulo every power of two. */
  lemma {:induction false} OddInverse(q: nat, j: nat) returns (x: nat, t: nat)
    requires q % 2 == 1
    ensures q * x == 1 + t * Pow2(j)
  {
    if j == 0 {
      x, t := 1, q - 1;
    } else {
      x, t := OddInverse(q, j - 1);
      InverseStep(q, x, t, Pow2(j - 1));
      if t % 2 == 0 {
        t := t / 2;
      } else {
        x, t := x + Pow2(j - 1), (t + q) / 2;
      }
    }
  }

  lemma InverseStep(q: nat, x: nat, t: nat, h: nat)
    requires q % 2 == 1 && q * x == 1 + t * h
    ensures t % 2 == 0 ==> t * h == (t / 2) * (2 * h)
    ensures t % 2 == 1 ==> q * (x + h) == 1 + ((t + q) / 2) * (2 * h)
  {
    if t % 2 == 0 {
      var u := t / 2;
      assert (2 * u) * h == u * (2 * h);
    } else {
      var u := (t + q) / 2;
      assert t + q == 2 * u;
      assert (2 * u) * h == u * (2 * h);
      Distribute(t, q, h);
      Distribute(x, h, q);
    }
  }

  /** The clock shows only multiples of Twos(tickMs). */
  lemma ShownAtMost(tickMs: nat, m: nat)
    requires 0 < tickMs < WRAP
    ensures Shown(m, tickMs) <= WRAP - Twos(tickMs)
  {
    Pow2Word();
    var q, i := TwosSplit(tickMs, 32);
    Pow2Adds(i, 32 - i);
    MultipleModulo(Twos(tickMs), Pow2(32 - i), q, m);
  }

  lemma MultipleModulo(g: nat, h: nat, q: nat, m: nat)
    requires g > 0 && g * h == WRAP
    ensures m * (g * q) % WRAP <= WRAP - g
  {
    var x := m * (g * q);
    var t := m * q - (x / WRAP) * h;
    assert x == g * (m * q);
    assert (x / WRAP) * WRAP == g * ((x / WRAP) * h);
    assert x % WRAP == x - (x / WRAP) * WRAP;
    Distribute(m * q, -((x / WRAP) * h), g);
    assert x % WRAP == g * t;
    if t >= h {
      TimesMonotone(h, t, g);
    }
    assert g * t <= g * (h - 1);
  }

  /** And it shows the largest of them again and again. */
  lemma ShownReaches(tickMs: nat, after: nat) returns (m: nat)
    requires 0 < tickMs < WRAP
    ensures m >= after && Shown(m, tickMs) == WRAP - Twos(tickMs)
  {
    var h, q, x, t := Inverse(tickMs);
    m := TopPeriod(h, x, after);
    hide Twos;
    ReachesTop(Twos(tickMs), h, q, x, t, after);
  }

  lemma Inverse(tickMs: nat) returns (h: nat, q: nat, x: nat, t: nat)
    requires 0 < tickMs < WRAP
    ensures h >= 1 && Twos(tickMs) * h == WRAP && tickMs == Twos(tickMs) * q && q * x == 1 + t * h
  {
    Pow2Word();
    var i;
    q, i := TwosSplit(tickMs, 32);
    hide Twos, Pow2;
    h := Pow2(32 - i);
    Pow2Adds(i, 32 - i);
    Pow2Positive(32 - i);
    x, t := OddInverse(q, 32 - i);
  }

  lemma Pow2Positive(n: nat)
    ensures Pow2(n) >= 1
  {
    Pow2Grows(0, n);
  }

  lemma TopPeriod(h: nat, x: nat, after: nat) returns (m: nat)
    requires h >= 1
    ensures m >= after && m == x * (h - 1) + after * WRAP
  {
    TimesMonotone(0, x, h - 1);
    m := x * (h - 1) + after * WRAP;
  }

  lemma ReachesTop(g: nat, h: nat, q: nat, x: nat, t: nat, after: nat)
    requires g * h == WRAP && g >= 1 && h >= 1 && q * x == 1 + t * h
    ensures (x * (h - 1) + after * WRAP) * (g * q) % WRAP == WRAP - g
  {
    var k := t * (h - 1) + after * (g * q);
    Rearranged(g, h, q, x, t);
    assert after * WRAP * (g * q) == (after * (g * q)) * WRAP;
    Distribute(x * (h - 1), after * WRAP, g * q);
    Distribute(t * (h - 1), after * (g * q), WRAP);
    TimesMonotone(1, h, g);
    RestModulo(k, WRAP - g);
  }

  lemma Rearranged(g: nat, h: nat, q: nat, x: nat, t: nat)
    requires g * h == WRAP && h >= 1 && q * x == 1 + t * h
    ensures x * (h - 1) * (g * q) == (WRAP - g) + (t * (h - 1)) * WRAP
  {
    assert x * (h - 1) * (g * q) == ((q * x) * (h - 1)) * g;
    Distribute(1, t * h, h - 1);
    assert t * h * (h - 1) == (t * (h - 1)) * h;
    Distribute(h - 1, (t * (h - 1)) * h, g);
    Distribute(h, -1, g);
    assert ((t * (h - 1)) * h) * g == (t * (h - 1)) * (g * h);
  }

  lemma RestModulo(k: nat, rest: nat)
    requires rest < WRAP
    ensures (rest + k * WRAP) % WRAP == rest
  {
  }

  /** A request that is left alone is signalled some day if and only if the 32-bit time it waits for
      is one that the clock reaches: at most 2^32 less the largest power of two in the period. */
  lemma EverSignalledIff(r: Request, tickMs: nat)
    requires 0 < tickMs < WRAP
    ensures (exists m: nat :: Expected(r, tickMs, m) != []) <==> Armed(r, tickMs, []) <= WRAP - Twos(tickMs)
  {
    if Armed(r, tickMs, []) <= WRAP - Twos(tickMs) {
      var m := ShownReaches(tickMs, FirstSweep(r));
      ExpectedNext(r, tickMs, m);
      assert Expected(r, tickMs, m) != [];
    } else {
      forall m: nat ensures Expected(r, tickMs, m) == [] {
        NeverReached(r, tickMs, m);
      }
    }
  }

  lemma NeverReached(r: Request, tickMs: nat, m: int)
    requires 0 < tickMs < WRAP && Armed(r, tickMs, []) > WRAP - Twos(tickMs)
    ensures Expected(r, tickMs, m) == []
  {
    if m >= FirstSweep(r) {
      forall j | FirstSweep(r) - 1 < j <= m ensures Shown(j, tickMs) < Armed(r, tickMs, []) {
        ShownAtMost(tickMs, j);
      }
      NothingUntil(r, tickMs, FirstSweep(r) - 1, m);
    }
  }
}
