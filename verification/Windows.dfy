// The sliding window that retrieval/chunker.py runs twice, over paragraphs and over the
// sentences of an oversized paragraph, as a function from token counts to the windows it
// emits. The methods of module Chunker are proved to follow it.
module Windows {

  /** Full: the token budget was reached. Flush: cut short by an oversized unit. Final: what
      is left at the end. Oversized: a unit that is split on its own. */
  datatype Kind = Full | Flush | Final
  datatype Event = Window(kind: Kind, lo: nat, hi: nat) | Oversized(unit: nat)

  /** The units of a document: how many tokens each has and which ones are split further. */
  datatype Units = Units(tokens: seq<nat>, oversized: seq<bool>) {
    ghost predicate Valid() { |tokens| == |oversized| }
  }

  function Sum(t: seq<nat>, lo: nat, hi: nat): nat
    requires lo <= hi <= |t|
  {
    if lo == hi then 0 else Sum(t, lo, hi - 1) + t[hi - 1]
  }

  /** Where the next window starts after one that ends at k: units are taken back from the
      end while the overlap budget is positive. */
  function Carry(t: seq<nat>, lo: nat, k: nat, budget: int): (start: nat)
    requires lo <= k <= |t|
    ensures lo <= start <= k
  {
    if k == lo || budget <= 0 then k else Carry(t, lo, k - 1, budget - t[k - 1])
  }

  /** What is still emitted when units lo..i are held and unit i comes next. */
  function Events(u: Units, size: int, overlap: int, lo: nat, i: nat): seq<Event>
    requires u.Valid() && lo <= i <= |u.tokens|
    decreases |u.tokens| - i
  {
    if i == |u.tokens| then if lo < i then [Window(Final, lo, i)] else []
    else if u.oversized[i] then
      (if lo < i then [Window(Flush, lo, i)] else []) + [Oversized(i)] + Events(u, size, overlap, i + 1, i + 1)
    else if Sum(u.tokens, lo, i + 1) >= size then
      [Window(Full, lo, i + 1)] + Events(u, size, overlap, Carry(u.tokens, lo, i + 1, overlap), i + 1)
    else Events(u, size, overlap, lo, i + 1)
  }

  function NoFlags(n: nat): (flags: seq<bool>)
    ensures |flags| == n && forall k | 0 <= k < n :: !flags[k]
  {
    seq(n, _ => false)
  }

  /** Units none of which is oversized, as sentences are. */
  function AllKept(tokens: seq<nat>): (u: Units)
    ensures u.Valid() && u.tokens == tokens && forall k | 0 <= k < |tokens| :: !u.oversized[k]
  {
    Units(tokens, NoFlags(|tokens|))
  }

  // ---- sums and carries ----

  lemma {:induction false} SumSplit(t: seq<nat>, lo: nat, mid: nat, hi: nat)
    requires lo <= mid <= hi <= |t|
    ensures Sum(t, lo, hi) == Sum(t, lo, mid) + Sum(t, mid, hi)
    decreases hi
  {
    if mid < hi { SumSplit(t, lo, mid, hi - 1); }
  }

  lemma SumNext(t: seq<nat>, lo: nat, i: nat)
    requires lo <= i < |t|
    ensures Sum(t, lo, i + 1) == Sum(t, lo, i) + t[i]
    ensures Sum(t, i, i) == 0 && Sum(t, i + 1, i + 1) == 0
  {}

  /** start..hi is the shortest suffix of lo..hi with at least overlap tokens, or all of it. */
  ghost predicate ShortestSuffix(t: seq<nat>, lo: nat, hi: nat, overlap: int, start: nat)
    requires lo <= hi <= |t|
  {
    && lo <= start <= hi
    && (start == lo || Sum(t, start, hi) >= overlap)
    && forall k | start < k <= hi :: Sum(t, k, hi) < overlap
  }

  lemma {:induction false} CarryIsShortestSuffix(t: seq<nat>, lo: nat, k: nat, hi: nat, budget: int, overlap: int)
    requires lo <= k <= hi <= |t| && budget == overlap - Sum(t, k, hi)
    requires forall j | k < j <= hi :: Sum(t, j, hi) < overlap
    ensures ShortestSuffix(t, lo, hi, overlap, Carry(t, lo, k, budget))
    decreases k
  {
    if k > lo && budget > 0 {
      SumSplit(t, k - 1, k, hi);
      assert Sum(t, k - 1, k) == Sum(t, k - 1, k - 1) + t[k - 1] == t[k - 1];
      CarryIsShortestSuffix(t, lo, k - 1, hi, budget - t[k - 1], overlap);
    }
  }

  /** One turn of the loop, for proofs that hide the recursion. */
  lemma EventsUnfold(u: Units, size: int, overlap: int, lo: nat, i: nat)
    requires u.Valid() && lo <= i <= |u.tokens|
    ensures i == |u.tokens| ==> Events(u, size, overlap, lo, i) == if lo < i then [Window(Final, lo, i)] else []
    ensures i < |u.tokens| && u.oversized[i] ==>
              Events(u, size, overlap, lo, i)
              == (if lo < i then [Window(Flush, lo, i)] else []) + [Oversized(i)] + Events(u, size, overlap, i + 1, i + 1)
    ensures i < |u.tokens| && !u.oversized[i] && Sum(u.tokens, lo, i + 1) >= size ==>
              Events(u, size, overlap, lo, i)
              == [Window(Full, lo, i + 1)] + Events(u, size, overlap, Carry(u.tokens, lo, i + 1, overlap), i + 1)
    ensures i < |u.tokens| && !u.oversized[i] && Sum(u.tokens, lo, i + 1) < size ==>
              Events(u, size, overlap, lo, i) == Events(u, size, overlap, lo, i + 1)
  {}

  // ---- the shape of the emitted windows ----

  /** A window is a non-empty run of units none of which is oversized; a full one has
      reached the budget. */
  ghost predicate WellFormed(u: Units, size: int, e: Event)
    requires u.Valid()
  {
    if e.Oversized? then e.unit < |u.tokens| && u.oversized[e.unit]
    else
      && e.lo < e.hi <= |u.tokens|
      && (forall k | e.lo <= k < e.hi :: !u.oversized[k])
      && (e.kind == Full ==> Sum(u.tokens, e.lo, e.hi) >= size)
  }

  /** How one event can follow another. After a full window the next one starts with the
      shortest suffix that reaches the overlap, and it is emitted at the first unit that
      fills it; an oversized unit comes straight after its flush. */
  ghost predicate Follows(u: Units, size: int, overlap: int, e: Event, f: Event)
    requires u.Valid() && WellFormed(u, size, e) && WellFormed(u, size, f)
  {
    match e
    case Oversized(p) =>
      if f.Oversized? then f.unit == p + 1 else f.lo == p + 1 && Grown(u, size, f, p + 1)
    case Window(kind, lo, hi) =>
      match kind
      case Full =>
        if f.Oversized? then ShortestSuffix(u.tokens, lo, hi, overlap, hi) && f.unit == hi
        else ShortestSuffix(u.tokens, lo, hi, overlap, f.lo) && Grown(u, size, f, hi)
      case Flush => f == Oversized(hi)
      case Final => false
  }

  /** f grew from units f.lo..from one by one: it stayed under budget until its end. */
  ghost predicate Grown(u: Units, size: int, f: Event, from: nat)
    requires u.Valid() && WellFormed(u, size, f) && f.Window?
  {
    && f.lo <= from <= f.hi
    && (f.kind == Full ==> from < f.hi)
    && (f.kind == Flush ==> f.hi < |u.tokens| && u.oversized[f.hi])
    && (f.kind == Final ==> f.hi == |u.tokens|)
    && forall k | from < k <= f.hi && (f.kind != Full || k < f.hi) :: Sum(u.tokens, f.lo, k) < size
  }

  ghost predicate Chained(u: Units, size: int, overlap: int, ev: seq<Event>)
    requires u.Valid()
  {
    && (forall k | 0 <= k < |ev| :: WellFormed(u, size, ev[k]))
    && (forall k | 0 <= k < |ev| - 1 :: Follows(u, size, overlap, ev[k], ev[k + 1]))
  }

  /** f is the first event emitted from a state that holds units lo..i, of which those from
      from on were added one by one. */
  ghost predicate FirstFrom(u: Units, size: int, lo: nat, from: nat, i: nat, f: Event)
    requires u.Valid() && WellFormed(u, size, f)
  {
    if f.Oversized? then f.unit == lo == from == i
    else f.lo == lo && i <= f.hi && (f.kind == Full ==> i < f.hi) && Grown(u, size, f, from)
  }

  lemma FlushChained(u: Units, size: int, overlap: int, lo: nat, from: nat, i: nat, rest: seq<Event>)
    requires u.Valid() && lo <= from <= i < |u.tokens| && u.oversized[i]
    requires forall k | lo <= k < i :: !u.oversized[k]
    requires forall k | from < k <= i :: Sum(u.tokens, lo, k) < size
    requires Chained(u, size, overlap, rest)
    requires rest != [] ==> FirstFrom(u, size, i + 1, i + 1, i + 1, rest[0])
    ensures var ev := (if lo < i then [Window(Flush, lo, i)] else []) + [Oversized(i)] + rest;
            Chained(u, size, overlap, ev) && FirstFrom(u, size, lo, from, i, ev[0])
  {
    if lo < i {
      assert [Window(Flush, lo, i)] + [Oversized(i)] + rest == [Window(Flush, lo, i)] + ([Oversized(i)] + rest);
    } else {
      assert [] + [Oversized(i)] + rest == [Oversized(i)] + rest;
    }
  }

  lemma FullChained(u: Units, size: int, overlap: int, lo: nat, from: nat, i: nat, rest: seq<Event>)
    requires u.Valid() && lo <= from <= i < |u.tokens| && Sum(u.tokens, lo, i + 1) >= size
    requires forall k | lo <= k <= i :: !u.oversized[k]
    requires forall k | from < k <= i :: Sum(u.tokens, lo, k) < size
    requires Chained(u, size, overlap, rest)
    requires rest != [] ==> FirstFrom(u, size, Carry(u.tokens, lo, i + 1, overlap), i + 1, i + 1, rest[0])
    ensures Chained(u, size, overlap, [Window(Full, lo, i + 1)] + rest)
    ensures FirstFrom(u, size, lo, from, i, Window(Full, lo, i + 1))
  {
    CarryIsShortestSuffix(u.tokens, lo, i + 1, i + 1, overlap, overlap);
  }

  lemma FinalChained(u: Units, size: int, overlap: int, lo: nat, from: nat, i: nat)
    requires u.Valid() && lo <= from <= i == |u.tokens| && lo < i
    requires forall k | lo <= k < i :: !u.oversized[k]
    requires forall k | from < k <= i :: Sum(u.tokens, lo, k) < size
    ensures Chained(u, size, overlap, [Window(Final, lo, i)])
    ensures FirstFrom(u, size, lo, from, i, Window(Final, lo, i))
  {}

  lemma FirstFromEarlier(u: Units, size: int, overlap: int, lo: nat, from: nat, i: nat, ev: seq<Event>)
    requires u.Valid() && from <= i && Chained(u, size, overlap, ev)
    requires ev != [] ==> FirstFrom(u, size, lo, from, i + 1, ev[0])
    ensures ev != [] ==> FirstFrom(u, size, lo, from, i, ev[0])
  {}

  lemma NothingChained(u: Units, size: int, overlap: int)
    requires u.Valid()
    ensures Chained(u, size, overlap, [])
  {}

  ghost predicate ChainedFrom(u: Units, size: int, overlap: int, lo: nat, from: nat, i: nat, ev: seq<Event>)
    requires u.Valid()
  {
    Chained(u, size, overlap, ev) && (ev != [] ==> FirstFrom(u, size, lo, from, i, ev[0]))
  }

  /** Windows are contiguous ascending runs, chained as Follows says. */
  lemma {:induction false} EventsChained(u: Units, size: int, overlap: int, lo: nat, from: nat, i: nat)
    requires u.Valid() && lo <= from <= i <= |u.tokens|
    requires forall k | lo <= k < i :: !u.oversized[k]
    requires forall k | from < k <= i :: Sum(u.tokens, lo, k) < size
    ensures ChainedFrom(u, size, overlap, lo, from, i, Events(u, size, overlap, lo, i))
    decreases |u.tokens| - i
  {
    hide Events, Carry, Chained, FirstFrom, Sum;
    EventsUnfold(u, size, overlap, lo, i);
    NothingChained(u, size, overlap);
    if i == |u.tokens| {
      if lo < i { FinalChained(u, size, overlap, lo, from, i); }
    } else if u.oversized[i] {
      SumNext(u.tokens, lo, i);
      EventsChained(u, size, overlap, i + 1, i + 1, i + 1);
      FlushChained(u, size, overlap, lo, from, i, Events(u, size, overlap, i + 1, i + 1));
    } else if Sum(u.tokens, lo, i + 1) >= size {
      var next := Carry(u.tokens, lo, i + 1, overlap);
      EventsChained(u, size, overlap, next, i + 1, i + 1);
      FullChained(u, size, overlap, lo, from, i, Events(u, size, overlap, next, i + 1));
    } else {
      EventsChained(u, size, overlap, lo, from, i + 1);
      FirstFromEarlier(u, size, overlap, lo, from, i, Events(u, size, overlap, lo, i + 1));
    }
  }

  // ---- how large a window can get ----

  function Max(a: int, b: int): int { if a >= b then a else b }

  /** The most that can be held without being emitted, when no unit that enters a window has
      more than m tokens. */
  function HeldBound(size: int, overlap: int, m: nat): int {
    Max(size - 1, if overlap >= 1 then overlap - 1 + m else 0)
  }

  lemma CarryHeld(t: seq<nat>, lo: nat, hi: nat, size: int, overlap: int, m: nat)
    requires lo <= hi <= |t| && forall k | lo <= k < hi :: t[k] <= m
    ensures Sum(t, Carry(t, lo, hi, overlap), hi) <= HeldBound(size, overlap, m)
  {
    hide Carry;
    var start := Carry(t, lo, hi, overlap);
    assert Sum(t, hi, hi) == 0;
    CarryIsShortestSuffix(t, lo, hi, hi, overlap, overlap);
    if start < hi {
      SumSplit(t, start, start + 1, hi);
      assert Sum(t, start, start + 1) == Sum(t, start, start) + t[start];
      assert Sum(t, start + 1, hi) < overlap;
    }
  }

  ghost predicate Bounded(u: Units, held: int, m: nat, e: Event)
    requires u.Valid()
  {
    e.Window? ==> e.lo <= e.hi <= |u.tokens|
                  && Sum(u.tokens, e.lo, e.hi) <= held + if e.kind == Full then m else 0
  }

  lemma HeldBoundCoversSize(size: int, overlap: int, m: nat)
    ensures HeldBound(size, overlap, m) >= size - 1 && HeldBound(size, overlap, m) >= 0
  {}

  /** Full windows stay within HeldBound + m tokens, the others within HeldBound. */
  lemma {:induction false} WindowSizeBound(u: Units, size: int, overlap: int, m: nat, lo: nat, i: nat)
    requires u.Valid() && lo <= i <= |u.tokens|
    requires forall k | 0 <= k < |u.tokens| && !u.oversized[k] :: u.tokens[k] <= m
    requires forall k | lo <= k < i :: !u.oversized[k]
    requires Sum(u.tokens, lo, i) <= HeldBound(size, overlap, m)
    ensures forall e | e in Events(u, size, overlap, lo, i) :: Bounded(u, HeldBound(size, overlap, m), m, e)
    decreases |u.tokens| - i
  {
    hide Events, Carry, Sum, HeldBound;
    EventsUnfold(u, size, overlap, lo, i);
    HeldBoundCoversSize(size, overlap, m);
    if i == |u.tokens| {
    } else if u.oversized[i] {
      SumNext(u.tokens, lo, i);
      WindowSizeBound(u, size, overlap, m, i + 1, i + 1);
    } else {
      SumNext(u.tokens, lo, i);
      if Sum(u.tokens, lo, i + 1) >= size {
        CarryHeld(u.tokens, lo, i + 1, size, overlap, m);
        WindowSizeBound(u, size, overlap, m, Carry(u.tokens, lo, i + 1, overlap), i + 1);
      } else {
        WindowSizeBound(u, size, overlap, m, lo, i + 1);
      }
    }
  }

  // ---- how often a unit is repeated ----

  predicate Covers(e: Event, p: nat) {
    !e.Oversized? && e.lo <= p < e.hi
  }

  function Count(ev: seq<Event>, p: nat): nat {
    if ev == [] then 0 else (if Covers(ev[0], p) then 1 else 0) + Count(ev[1..], p)
  }

  lemma CountCons(e: Event, rest: seq<Event>, p: nat)
    ensures Count([e] + rest, p) == (if Covers(e, p) then 1 else 0) + Count(rest, p)
  {
    assert ([e] + rest)[1..] == rest;
  }

  lemma OversizedStep(u: Units, size: int, overlap: int, lo: nat, i: nat, p: nat)
    requires u.Valid() && lo <= i < |u.tokens| && u.oversized[i]
    ensures Count(Events(u, size, overlap, lo, i), p)
         == (if lo <= p < i then 1 else 0) + Count(Events(u, size, overlap, i + 1, i + 1), p)
  {
    hide Events, Count;
    EventsUnfold(u, size, overlap, lo, i);
    var rest := Events(u, size, overlap, i + 1, i + 1);
    CountCons(Oversized(i), rest, p);
    if lo < i {
      CountCons(Window(Flush, lo, i), [Oversized(i)] + rest, p);
      assert [Window(Flush, lo, i)] + [Oversized(i)] + rest == [Window(Flush, lo, i)] + ([Oversized(i)] + rest);
    } else {
      assert [] + [Oversized(i)] + rest == [Oversized(i)] + rest;
    }
  }

  lemma FullStep(u: Units, size: int, overlap: int, lo: nat, i: nat, p: nat)
    requires u.Valid() && lo <= i < |u.tokens| && !u.oversized[i] && Sum(u.tokens, lo, i + 1) >= size
    ensures Count(Events(u, size, overlap, lo, i), p)
         == (if lo <= p <= i then 1 else 0) + Count(Events(u, size, overlap, Carry(u.tokens, lo, i + 1, overlap), i + 1), p)
  {
    hide Events, Count, Carry, Sum;
    EventsUnfold(u, size, overlap, lo, i);
    CountCons(Window(Full, lo, i + 1), Events(u, size, overlap, Carry(u.tokens, lo, i + 1, overlap), i + 1), p);
  }

  lemma EndStep(u: Units, size: int, overlap: int, lo: nat, p: nat)
    requires u.Valid() && lo <= |u.tokens|
    ensures Count(Events(u, size, overlap, lo, |u.tokens|), p) == if lo <= p < |u.tokens| then 1 else 0
  {
    if lo < |u.tokens| {
      CountCons(Window(Final, lo, |u.tokens|), [], p);
      assert [Window(Final, lo, |u.tokens|)] + [] == [Window(Final, lo, |u.tokens|)];
    }
  }

  /** Units before the held ones never come back. */
  lemma {:induction false} CountPassed(u: Units, size: int, overlap: int, lo: nat, i: nat, p: nat)
    requires u.Valid() && p < lo <= i <= |u.tokens|
    ensures Count(Events(u, size, overlap, lo, i), p) == 0
    decreases |u.tokens| - i
  {
    hide Events, Count, Carry, Sum;
    if i == |u.tokens| {
      EndStep(u, size, overlap, lo, p);
    } else if u.oversized[i] {
      OversizedStep(u, size, overlap, lo, i, p);
      CountPassed(u, size, overlap, i + 1, i + 1, p);
    } else if Sum(u.tokens, lo, i + 1) >= size {
      FullStep(u, size, overlap, lo, i, p);
      CountPassed(u, size, overlap, Carry(u.tokens, lo, i + 1, overlap), i + 1, p);
    } else {
      EventsUnfold(u, size, overlap, lo, i);
      CountPassed(u, size, overlap, lo, i + 1, p);
    }
  }

  /** A unit that is carried over has fewer than overlap tokens after it. */
  lemma CarriedIsNear(t: seq<nat>, lo: nat, hi: nat, overlap: int, p: nat)
    requires lo <= hi <= |t| && Carry(t, lo, hi, overlap) <= p < hi
    ensures Sum(t, p + 1, hi) < overlap
  {
    CarryIsShortestSuffix(t, lo, hi, hi, overlap, overlap);
  }

  /** A held unit with r tokens after it is emitted at most max(overlap - r, 1) more times:
      every further full window adds a token behind it, and it is dropped once overlap
      tokens follow. */
  lemma {:induction false} CountHeld(u: Units, size: int, overlap: int, lo: nat, i: nat, p: nat)
    requires u.Valid() && lo <= p < i <= |u.tokens|
    requires forall k | 0 <= k < |u.tokens| && !u.oversized[k] :: u.tokens[k] >= 1
    ensures Count(Events(u, size, overlap, lo, i), p) <= Max(overlap - Sum(u.tokens, p + 1, i), 1)
    decreases |u.tokens| - i
  {
    hide Events, Count, Carry, Sum;
    var t := u.tokens;
    if i == |t| {
      EndStep(u, size, overlap, lo, p);
    } else if u.oversized[i] {
      OversizedStep(u, size, overlap, lo, i, p);
      CountPassed(u, size, overlap, i + 1, i + 1, p);
    } else {
      SumNext(t, p + 1, i);
      if Sum(t, lo, i + 1) >= size {
        var next := Carry(t, lo, i + 1, overlap);
        FullStep(u, size, overlap, lo, i, p);
        if p < next {
          CountPassed(u, size, overlap, next, i + 1, p);
        } else {
          CarriedIsNear(t, lo, i + 1, overlap, p);
          CountHeld(u, size, overlap, next, i + 1, p);
        }
      } else {
        EventsUnfold(u, size, overlap, lo, i);
        CountHeld(u, size, overlap, lo, i + 1, p);
      }
    }
  }

  /** No unit is placed in more than overlap + 1 windows, flushes and the last one included. */
  lemma {:induction false} BoundedDuplication(u: Units, size: int, overlap: int, lo: nat, i: nat, p: nat)
    requires u.Valid() && lo <= i <= p < |u.tokens|
    requires forall k | 0 <= k < |u.tokens| && !u.oversized[k] :: u.tokens[k] >= 1
    ensures Count(Events(u, size, overlap, lo, i), p) <= Max(overlap, 0) + 1
    decreases |u.tokens| - i
  {
    hide Events, Count, Carry, Sum;
    var t := u.tokens;
    SumNext(t, lo, i);
    if u.oversized[i] {
      OversizedStep(u, size, overlap, lo, i, p);
      if p == i { CountPassed(u, size, overlap, i + 1, i + 1, p); }
      else { BoundedDuplication(u, size, overlap, i + 1, i + 1, p); }
    } else if Sum(t, lo, i + 1) >= size {
      var next := Carry(t, lo, i + 1, overlap);
      FullStep(u, size, overlap, lo, i, p);
      if p > i { BoundedDuplication(u, size, overlap, next, i + 1, p); }
      else if p < next { CountPassed(u, size, overlap, next, i + 1, p); }
      else {
        CarriedIsNear(t, lo, i + 1, overlap, p);
        CountHeld(u, size, overlap, next, i + 1, p);
      }
    } else {
      EventsUnfold(u, size, overlap, lo, i);
      if p == i { CountHeld(u, size, overlap, lo, i + 1, p); }
      else { BoundedDuplication(u, size, overlap, lo, i + 1, p); }
    }
  }

  // ---- nothing is skipped ----

  /** Every unit that is not oversized is in some window, and every oversized one has its
      own event. */
  lemma {:induction false} EventsCover(u: Units, size: int, overlap: int, lo: nat, i: nat, p: nat)
    requires u.Valid() && lo <= i <= |u.tokens| && lo <= p < |u.tokens|
    requires forall k | lo <= k < i :: !u.oversized[k]
    ensures if u.oversized[p] then Oversized(p) in Events(u, size, overlap, lo, i)
            else exists e :: e in Events(u, size, overlap, lo, i) && Covers(e, p)
    decreases |u.tokens| - i
  {
    var ev := Events(u, size, overlap, lo, i);
    if i == |u.tokens| {
      assert ev[0] == Window(Final, lo, i) && Covers(ev[0], p);
    } else if u.oversized[i] {
      if p < i { assert ev[0] == Window(Flush, lo, i) && Covers(ev[0], p); }
      else if p > i { EventsCover(u, size, overlap, i + 1, i + 1, p); }
    } else if Sum(u.tokens, lo, i + 1) >= size {
      var next := Carry(u.tokens, lo, i + 1, overlap);
      if p <= i { assert ev[0] == Window(Full, lo, i + 1) && Covers(ev[0], p); }
      else { EventsCover(u, size, overlap, next, i + 1, p); }
    } else {
      EventsCover(u, size, overlap, lo, i + 1, p);
    }
  }

  // ---- both bounds are reached ----

  /** Three paragraphs of size, overlap - 1 and size tokens end in a window of
      2 * size + overlap - 1 tokens. */
  lemma SizeBoundIsTight(size: nat, overlap: nat)
    requires 1 <= overlap <= size
    ensures var u := AllKept([size, overlap - 1, size]);
            && (forall k | 0 <= k < 3 :: u.tokens[k] <= size)
            && Window(Full, 0, 3) in Events(u, size, overlap, 0, 0)
            && Sum(u.tokens, 0, 3) == 2 * size + overlap - 1
  {
    var t: seq<nat> := [size, overlap - 1, size];
    var u := AllKept(t);
    assert Sum(t, 0, 0) == 0 && Sum(t, 0, 1) == size && Sum(t, 0, 2) == size + overlap - 1;
    assert Carry(t, 0, 1, overlap) == 0;
    assert Carry(t, 0, 2, overlap) == Carry(t, 0, 1, 1) == 0;
    assert Window(Full, 0, 3) in Events(u, size, overlap, 0, 2);
    assert Events(u, size, overlap, 0, 1) == [Window(Full, 0, 2)] + Events(u, size, overlap, 0, 2);
    assert Events(u, size, overlap, 0, 0) == [Window(Full, 0, 1)] + Events(u, size, overlap, 0, 1);
  }

  function OneThenUnits(size: nat, overlap: nat): seq<nat> {
    [size] + seq(overlap, _ => 1)
  }

  lemma {:induction false} SumOfOnes(size: nat, overlap: nat, lo: nat, hi: nat)
    requires 1 <= lo <= hi <= overlap + 1
    ensures Sum(OneThenUnits(size, overlap), lo, hi) == hi - lo
    decreases hi
  {
    if lo < hi { SumOfOnes(size, overlap, lo, hi - 1); }
  }

  /** A full paragraph followed by overlap paragraphs of one token: the first one is in
      overlap + 1 windows. */
  lemma {:induction false} DuplicationIsTight(size: nat, overlap: nat, i: nat)
    requires size >= 1 && i <= overlap
    ensures Count(Events(AllKept(OneThenUnits(size, overlap)), size, overlap, 0, i), 0) == overlap + 1 - i
    decreases overlap - i
  {
    var t := OneThenUnits(size, overlap);
    var u := AllKept(t);
    SumSplit(t, 0, 1, i + 1);
    SumOfOnes(size, overlap, 1, i + 1);
    assert Sum(t, 0, 1) == Sum(t, 0, 0) + t[0] == size;
    var next := Carry(t, 0, i + 1, overlap);
    CarryIsShortestSuffix(t, 0, i + 1, i + 1, overlap, overlap);
    CountCons(Window(Full, 0, i + 1), Events(u, size, overlap, next, i + 1), 0);
    if i < overlap {
      assert next == 0 by {
        if next > 0 { SumOfOnes(size, overlap, next, i + 1); }
      }
      DuplicationIsTight(size, overlap, i + 1);
    } else {
      assert Sum(t, 1, i + 1) == overlap;
      CountPassed(u, size, overlap, next, i + 1, 0);
    }
  }
}
