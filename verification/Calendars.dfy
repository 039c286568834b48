/** Business-day arithmetic on one market calendar (go/internal/registry/registry.go,
    mirrored by python/src/inspector/registry.py).

    A date is a day number; day 0 is a Sunday, so `d % 7` is Go's time.Weekday.
    Nothing here assumes that the market ever opens: a step gives up after
    STEP_CAP days exactly as the loops do, and the laws that survive that are
    proved for every calendar. */
module Calendars {
  const STEP_CAP := 30
  const SPAN_CAP := 400

  datatype Calendar = Calendar(weekend: set<int>, holidays: map<int, string>) {
    predicate IsBusinessDay(d: int) {
      d % 7 !in weekend && d !in holidays
    }

    /** `r` is where one forward step from `d` must land. */
    ghost predicate StepsForwardTo(d: int, r: int) {
      && d < r <= d + STEP_CAP
      && (forall x | d < x < r :: !IsBusinessDay(x))
      && (IsBusinessDay(r) || r == d + STEP_CAP)
    }

    ghost predicate StepsBackTo(d: int, r: int) {
      && d - STEP_CAP <= r < d
      && (forall x | r < x < d :: !IsBusinessDay(x))
      && (IsBusinessDay(r) || r == d - STEP_CAP)
    }

    function Next(d: int): (r: int)
      ensures d < r <= d + STEP_CAP
    {
      Ahead(d, d + STEP_CAP)
    }

    function Previous(d: int): (r: int)
      ensures d - STEP_CAP <= r < d
    {
      Back(d, d - STEP_CAP)
    }

    /** The first open day after `d` and up to `last`, or `last` itself. */
    function Ahead(d: int, last: int): (r: int)
      requires d < last
      ensures d < r <= last
      decreases last - d
    {
      if IsBusinessDay(d + 1) || d + 1 == last then d + 1 else Ahead(d + 1, last)
    }

    function Back(d: int, last: int): (r: int)
      requires last < d
      ensures last <= r < d
      decreases d - last
    {
      if IsBusinessDay(d - 1) || d - 1 == last then d - 1 else Back(d - 1, last)
    }

    lemma {:induction false} AheadFindsFirst(d: int, last: int)
      requires d < last
      ensures forall x | d < x < Ahead(d, last) :: !IsBusinessDay(x)
      ensures IsBusinessDay(Ahead(d, last)) || Ahead(d, last) == last
      decreases last - d
    {
      if !IsBusinessDay(d + 1) && d + 1 < last {
        AheadFindsFirst(d + 1, last);
      }
    }

    lemma {:induction false} BackFindsLatest(d: int, last: int)
      requires last < d
      ensures forall x | Back(d, last) < x < d :: !IsBusinessDay(x)
      ensures IsBusinessDay(Back(d, last)) || Back(d, last) == last
      decreases d - last
    {
      if !IsBusinessDay(d - 1) && last < d - 1 {
        BackFindsLatest(d - 1, last);
      }
    }

    lemma StepsLand(d: int)
      ensures StepsForwardTo(d, Next(d)) && StepsBackTo(d, Previous(d))
    {
      AheadFindsFirst(d, d + STEP_CAP);
      BackFindsLatest(d, d - STEP_CAP);
    }

    function Forward(d: int, n: nat): int {
      if n == 0 then d else Next(Forward(d, n - 1))
    }

    function Backward(d: int, n: nat): int {
      if n == 0 then d else Previous(Backward(d, n - 1))
    }

    function Add(d: int, n: int): int {
      if n >= 0 then Forward(d, n) else Backward(d, 0 - n)
    }

    method PreviousBusinessDay(date: int) returns (d: int)
      ensures d == Previous(date)
    {
      d := date;
      for i := 0 to STEP_CAP
        invariant d == date - i
        invariant forall x | d <= x < date :: !IsBusinessDay(x)
      {
        d := d - 1;
        if IsBusinessDay(d) {
          BackStepIsUnique(date, d);
          return;
        }
      }
      BackStepIsUnique(date, d);
    }

    method NextBusinessDay(date: int) returns (d: int)
      ensures d == Next(date)
    {
      d := date;
      for i := 0 to STEP_CAP
        invariant d == date + i
        invariant forall x | date < x <= d :: !IsBusinessDay(x)
      {
        d := d + 1;
        if IsBusinessDay(d) {
          ForwardStepIsUnique(date, d);
          return;
        }
      }
      ForwardStepIsUnique(date, d);
    }

    method AddBusinessDays(date: int, days: int) returns (d: int)
      ensures d == Add(date, days)
    {
      d := date;
      if days == 0 {
        return;
      }
      var n := if days < 0 then -days else days;
      for i := 0 to n
        invariant d == if days < 0 then Backward(date, i) else Forward(date, i)
      {
        if days < 0 {
          d := PreviousBusinessDay(d);
        } else {
          d := NextBusinessDay(d);
        }
      }
    }

    /** A step has exactly one landing day, so the characterisation above is complete. */
    lemma ForwardStepIsUnique(d: int, r: int)
      ensures StepsForwardTo(d, r) <==> r == Next(d)
    {
      StepsLand(d);
    }

    lemma BackStepIsUnique(d: int, r: int)
      ensures StepsBackTo(d, r) <==> r == Previous(d)
    {
      StepsLand(d);
    }

    // ---- forward and back are adjoint ----

    /** One step: both sides fail exactly when `t` is more than STEP_CAP days past `v`
        or an open day lies strictly between them. */
    lemma StepAdjunction(v: int, t: int)
      ensures Next(v) >= t <==> v >= Previous(t)
    {
      StepsLand(v);
      StepsLand(t);
      var n, p := Next(v), Previous(t);
      assert n < t ==> n == v + STEP_CAP || IsBusinessDay(n);
      assert p > v ==> p == t - STEP_CAP || IsBusinessDay(p);
    }

    lemma {:induction false} BackwardPeels(t: int, n: nat)
      requires n > 0
      ensures Backward(t, n) == Backward(Previous(t), n - 1)
    {
      if n > 1 {
        BackwardPeels(t, n - 1);
      }
    }

    /** n business days after v is on or after t exactly when v is on or after n
        business days before t, for every calendar, however long it stays shut. */
    lemma {:induction false} Adjunction(v: int, t: int, n: nat)
      ensures Add(v, n) >= t <==> v >= Add(t, 0 - n)
      decreases n
    {
      if n > 0 {
        StepAdjunction(Forward(v, n - 1), t);
        Adjunction(v, Previous(t), n - 1);
        BackwardPeels(t, n);
      }
    }

    lemma {:induction false} ForwardIsStrict(d: int, k: nat, n: nat)
      requires k < n
      ensures Forward(d, k) < Forward(d, n) && Backward(d, n) < Backward(d, k)
    {
      if k < n - 1 {
        ForwardIsStrict(d, k, n - 1);
      }
    }

    // ---- distance in business days ----

    /** Forward steps from `a` until `b` is reached or passed. */
    ghost function StepsUp(a: int, b: int): (n: nat)
      requires a < b
      ensures n >= 1
      decreases b - a
    {
      if Next(a) >= b then 1 else 1 + StepsUp(Next(a), b)
    }

    ghost function StepsDown(a: int, b: int): (n: nat)
      requires b < a
      ensures n >= 1
      decreases a - b
    {
      if Previous(a) <= b then 1 else 1 + StepsDown(Previous(a), b)
    }

    ghost function Distance(a: int, b: int): int {
      if a == b then 0
      else if a < b then Capped(StepsUp(a, b))
      else -Capped(StepsDown(a, b))
    }

    method BusinessDaysBetween(a: int, b: int) returns (n: int)
      ensures n == Distance(a, b)
    {
      if a == b {
        return 0;
      }
      var sign, cur, count := 1, a, 0;
      if b < a {
        sign := -1;
      }
      for i := 0 to SPAN_CAP
        invariant count == i
        invariant a < b ==> sign == 1 && cur < b && StepsUp(a, b) == count + StepsUp(cur, b)
        invariant b < a ==> sign == -1 && b < cur && StepsDown(a, b) == count + StepsDown(cur, b)
      {
        if sign > 0 {
          cur := NextBusinessDay(cur);
        } else {
          cur := PreviousBusinessDay(cur);
        }
        count := count + 1;
        if cur >= b && sign > 0 {
          break;
        }
        if cur <= b && sign < 0 {
          break;
        }
      }
      n := sign * count;
    }

    lemma {:induction false} ForwardPeels(d: int, n: nat)
      requires n > 0
      ensures Forward(d, n) == Forward(Next(d), n - 1)
    {
      if n > 1 {
        ForwardPeels(d, n - 1);
      }
    }

    /** StepsUp is the least number of business days that carries `a` to `b` or beyond. */
    lemma {:induction false} StepsUpIsLeast(a: int, b: int, n: nat)
      requires a < b
      ensures Forward(a, n) >= b <==> n >= StepsUp(a, b)
      decreases b - a
    {
      if n > 0 {
        ForwardPeels(a, n);
        if Next(a) < b {
          StepsUpIsLeast(Next(a), b, n - 1);
        } else if n > 1 {
          ForwardIsStrict(Next(a), 0, n - 1);
        }
      }
    }

    lemma {:induction false} StepsDownIsLeast(a: int, b: int, n: nat)
      requires b < a
      ensures Backward(a, n) <= b <==> n >= StepsDown(a, b)
      decreases a - b
    {
      if n > 0 {
        BackwardPeels(a, n);
        if Previous(a) > b {
          StepsDownIsLeast(Previous(a), b, n - 1);
        } else if n > 1 {
          ForwardIsStrict(Previous(a), 0, n - 1);
        }
      }
    }

    lemma UpEqualsDown(a: int, b: int)
      requires a < b
      ensures StepsUp(a, b) == StepsDown(b, a)
    {
      var u, w := StepsUp(a, b), StepsDown(b, a);
      StepsUpIsLeast(a, b, u);
      StepsUpIsLeast(a, b, w);
      StepsDownIsLeast(b, a, u);
      StepsDownIsLeast(b, a, w);
      Adjunction(a, b, u);
      Adjunction(a, b, w);
    }

    lemma DistanceIsAntisymmetric(a: int, b: int)
      ensures Distance(a, b) == -Distance(b, a)
    {
      if a < b {
        UpEqualsDown(a, b);
      } else if b < a {
        UpEqualsDown(b, a);
      }
    }

    lemma StepsToForward(a: int, n: nat)
      requires n > 0
      ensures a < Forward(a, n) && StepsUp(a, Forward(a, n)) == n
      ensures Backward(a, n) < a && StepsDown(a, Backward(a, n)) == n
    {
      ForwardIsStrict(a, 0, n);
      ForwardIsStrict(a, n - 1, n);
      var b, c := Forward(a, n), Backward(a, n);
      StepsUpIsLeast(a, b, n);
      StepsUpIsLeast(a, b, n - 1);
      StepsDownIsLeast(a, c, n);
      StepsDownIsLeast(a, c, n - 1);
    }

    lemma DistanceInvertsAdd(a: int, n: int)
      requires -SPAN_CAP <= n <= SPAN_CAP
      ensures Distance(a, Add(a, n)) == n
    {
      if n > 0 {
        StepsToForward(a, n);
      } else if n < 0 {
        StepsToForward(a, 0 - n);
      }
    }

    /** Walking up never jumps over an open day, so distances add up through one. */
    lemma {:induction false} StepsUpThrough(a: int, m: int, b: int)
      requires a < m < b && IsBusinessDay(m)
      ensures StepsUp(a, b) == StepsUp(a, m) + StepsUp(m, b)
      decreases m - a
    {
      StepsLand(a);
      if Next(a) < m {
        StepsUpThrough(Next(a), m, b);
      }
    }

    lemma DistanceIsAdditive(a: int, m: int, b: int)
      requires a <= m <= b && IsBusinessDay(m)
      ensures Distance(a, b) == Capped(Distance(a, m) + Distance(m, b))
    {
      if a < m < b {
        StepsUpThrough(a, m, b);
      }
    }

    // ---- what the distance counts ----

    ghost function OpenDaysInside(a: int, b: int): nat
      requires a < b
      decreases b - a
    {
      if a + 1 == b then 0
      else (if IsBusinessDay(a + 1) then 1 else 0) + OpenDaysInside(a + 1, b)
    }

    /** STEP_CAP closed days in a row, all strictly between `a` and `b`. */
    ghost predicate HasLongClosure(a: int, b: int) {
      exists x :: ClosureAfter(a, b, x)
    }

    ghost predicate ClosureAfter(a: int, b: int, x: int) {
      a <= x && x + STEP_CAP < b && forall y | x < y <= x + STEP_CAP :: !IsBusinessDay(y)
    }

    lemma {:induction false} SkipClosedDays(a: int, c: int, b: int)
      requires a <= c < b && forall x | a < x <= c :: !IsBusinessDay(x)
      ensures OpenDaysInside(a, b) == OpenDaysInside(c, b)
      decreases c - a
    {
      if a < c {
        SkipClosedDays(a + 1, c, b);
      }
    }

    lemma {:induction false} NoOpenDays(a: int, b: int)
      requires a < b && forall x | a < x < b :: !IsBusinessDay(x)
      ensures OpenDaysInside(a, b) == 0
      decreases b - a
    {
      if a + 1 < b {
        NoOpenDays(a + 1, b);
      }
    }

    /** The walk counts 1 plus the open days strictly between, exactly when it never
        has to give up a step; otherwise it counts strictly more. */
    lemma {:induction false} StepsUpCounts(a: int, b: int)
      requires a < b
      ensures StepsUp(a, b) >= 1 + OpenDaysInside(a, b)
      ensures StepsUp(a, b) == 1 + OpenDaysInside(a, b) <==> !HasLongClosure(a, b)
      decreases b - a
    {
      StepsLand(a);
      var c := Next(a);
      if c >= b {
        NoOpenDays(a, b);
        forall x ensures !ClosureAfter(a, b, x) {}
      } else {
        StepsUpCounts(c, b);
        SkipClosedDays(a, c - 1, b);
        if IsBusinessDay(c) {
          forall x ensures ClosureAfter(a, b, x) <==> ClosureAfter(c, b, x) {
          }
        } else {
          assert ClosureAfter(a, b, a);
        }
      }
    }

    lemma DistanceCountsOpenDays(a: int, b: int)
      requires a < b && !HasLongClosure(a, b)
      ensures Distance(a, b) == Capped(1 + OpenDaysInside(a, b))
      ensures Distance(b, a) == -Capped(1 + OpenDaysInside(a, b))
    {
      StepsUpCounts(a, b);
      DistanceIsAntisymmetric(a, b);
    }

    // ---- rolling onto a business day ----

    function Roll(d: int): (r: int)
      ensures r <= d && forall x | r < x <= d :: !IsBusinessDay(x)
      ensures IsBusinessDay(r) <==> exists x :: d - STEP_CAP <= x <= d && IsBusinessDay(x)
      ensures r == d || r == Previous(d)
    {
      if IsBusinessDay(d) then d
      else
        BackFindsLatest(d, d - STEP_CAP);
        Previous(d)
    }
  }

  function Capped(n: int): int {
    if n > SPAN_CAP then SPAN_CAP else n
  }
}
