/** Clock sweep (second chance): which frame of the buffer pool to evict. */
module ClockReplacer {
  import opened Bytes

  /** The replacer as a value: the hand, the reference bits and the frames that may be evicted. */
  datatype Clock = Clock(hand: nat, ref: seq<bool>, member: seq<bool>)

  ghost predicate WellFormed(c: Clock) {
    |c.member| == |c.ref| && (c.hand < |c.ref| || |c.ref| == 0 == c.hand)
  }

  function Fresh(n: nat): (c: Clock)
    ensures WellFormed(c)
  {
    Clock(0, seq(n, _ => false), seq(n, _ => false))
  }

  /** How far the hand moves to reach frame f. */
  function Distance(hand: nat, f: nat, n: nat): (d: nat)
    requires hand < n && f < n
    ensures d < n
  {
    if f >= hand then f - hand else f + n - hand
  }

  /**
   * What a sweep must do. It gives up only if no frame may be evicted. Otherwise it takes the first
   * evictable frame with a clear bit, or the first evictable one if all have their bit set, having
   * cleared the bits of the evictable frames it passed, and leaves the hand just behind it.
   */
  ghost predicate Sweep(c: Clock, c': Clock, r: Option<nat>)
    requires WellFormed(c)
  {
    var n := |c.ref|;
    match r
    case None => c' == c && forall f :: 0 <= f < n ==> !c.member[f]
    case Some(v) =>
      && v < n && c.member[v]
      && c'.hand == Next(v, n) && c'.member == c.member[v := false] && |c'.ref| == n
      && if !c.ref[v] then
           && (forall f :: 0 <= f < n && Distance(c.hand, f, n) < Distance(c.hand, v, n) && c.member[f] ==> c.ref[f])
           && (forall f :: 0 <= f < n ==>
                 c'.ref[f] == (c.ref[f] && !(c.member[f] && Distance(c.hand, f, n) < Distance(c.hand, v, n))))
         else
           && (forall f :: 0 <= f < n && c.member[f] ==> c.ref[f] && Distance(c.hand, v, n) <= Distance(c.hand, f, n))
           && (forall f :: 0 <= f < n ==> c'.ref[f] == (c.ref[f] && !c.member[f]))
  }

  /** The frame after f, around the clock. */
  function Next(f: nat, n: nat): (g: nat)
    requires f < n
    ensures g == (f + 1) % n
  {
    if f + 1 == n then 0 else f + 1
  }

  /** After i steps without a victim: where the hand is, which bits are cleared, and what was seen. */
  ghost predicate Partway(c: Clock, i: nat, s: Clock)
    requires WellFormed(c)
  {
    var n := |c.ref|;
    && s.member == c.member && |s.ref| == n && i <= 2 * n
    && (n == 0 ==> s == c)
    && (n > 0 ==>
          && s.hand == (c.hand + i) - (if c.hand + i < n then 0 else if c.hand + i < 2 * n then n else 2 * n)
          && (forall f :: 0 <= f < n && c.member[f] && Distance(c.hand, f, n) < i ==> c.ref[f])
          && (forall f :: 0 <= f < n ==> s.ref[f] == (c.ref[f] && !(c.member[f] && Distance(c.hand, f, n) < i)))
          && (forall f :: 0 <= f < n && Distance(c.hand, f, n) < i - n ==> !c.member[f]))
  }

  lemma Setout(c: Clock)
    requires WellFormed(c)
    ensures Partway(c, 0, c)
  {
  }

  /** One more step of the hand: either a victim, or one step further. */
  lemma Along(c: Clock, i: nat, s: Clock)
    requires WellFormed(c) && Partway(c, i, s) && i < 2 * |c.ref|
    ensures s.hand < |c.ref| && WellFormed(s)
    ensures var f, hand := s.hand, Next(s.hand, |c.ref|);
            if !s.member[f] then Partway(c, i + 1, s.(hand := hand))
            else if s.ref[f] then Partway(c, i + 1, Clock(hand, s.ref[f := false], s.member))
            else Sweep(c, Clock(hand, s.ref, s.member[f := false]), Some(f))
  {
    var n := |c.ref|;
    assert Distance(c.hand, s.hand, n) == if i < n then i else i - n;
  }

  lemma Return(c: Clock, s: Clock)
    requires WellFormed(c) && Partway(c, 2 * |c.ref|, s)
    ensures Sweep(c, s, None)
  {
    if |c.ref| > 0 {
      assert s.ref == c.ref;
    }
  }

  function PinStep(c: Clock, f: nat): (c': Clock)
    requires WellFormed(c)
  {
    if f < |c.ref| then Clock(c.hand, c.ref[f := false], c.member[f := false]) else c
  }

  function UnpinStep(c: Clock, f: nat): (c': Clock)
    requires WellFormed(c)
  {
    if f < |c.ref| then Clock(c.hand, c.ref[f := true], c.member[f := true]) else c
  }

  function Count(bits: seq<bool>): (n: nat) {
    if bits == [] then 0 else Count(bits[..|bits| - 1]) + if bits[|bits| - 1] then 1 else 0
  }

  class Replacer {
    const frames: nat
    var hand: nat
    const refBits: array<bool>
    const inReplacer: array<bool>

    ghost predicate Valid()
      reads this
    {
      refBits.Length == inReplacer.Length == frames && refBits != inReplacer && (hand < frames || frames == 0 == hand)
    }

    ghost function State(): (c: Clock)
      requires Valid()
      reads this, refBits, inReplacer
      ensures WellFormed(c)
    {
      Clock(hand, refBits[..], inReplacer[..])
    }

    constructor (n: nat)
      ensures Valid() && frames == n && State() == Fresh(n)
    {
      frames, hand := n, 0;
      refBits, inReplacer := new bool[n](_ => false), new bool[n](_ => false);
    }

    /** Chooses a frame to evict, within two turns of the hand. */
    method Victim() returns (r: Option<nat>)
      requires Valid()
      modifies this`hand, refBits, inReplacer
      ensures Valid() && Sweep(old(State()), State(), r)
    {
      hide Sweep, Partway;
      ghost var c := State();
      Setout(c);
      for i := 0 to frames * 2
        invariant Valid() && Partway(c, i, State())
      {
        ghost var s := State();
        Along(c, i, s);
        var curr := hand;
        hand := (hand + 1) % frames;
        if inReplacer[curr] {
          if refBits[curr] {
            refBits[curr] := false;
            assert State() == Clock(Next(curr, frames), s.ref[curr := false], s.member);
          } else {
            inReplacer[curr] := false;
            assert State() == Clock(Next(curr, frames), s.ref, s.member[curr := false]);
            return Some(curr);
          }
        } else {
          assert State() == s.(hand := Next(curr, frames));
        }
      }
      Return(c, State());
      r := None;
    }

    method Pin(f: nat)
      requires Valid()
      modifies refBits, inReplacer
      ensures Valid() && State() == PinStep(old(State()), f)
    {
      if f < frames {
        inReplacer[f] := false;
        refBits[f] := false;
      }
    }

    method Unpin(f: nat)
      requires Valid()
      modifies refBits, inReplacer
      ensures Valid() && State() == UnpinStep(old(State()), f)
    {
      if f < frames {
        inReplacer[f] := true;
        refBits[f] := true;
      }
    }

    method Size() returns (n: nat)
      requires Valid()
      ensures n == Count(State().member)
    {
      n := 0;
      for i := 0 to frames
        invariant n == Count(inReplacer[..i])
      {
        assert inReplacer[..i + 1][..i] == inReplacer[..i];
        if inReplacer[i] {
          n := n + 1;
        }
      }
      assert inReplacer[..frames] == inReplacer[..];
    }
  }

  // ---------------------------------------------------------------- what a sweep determines

  /** The law leaves no choice: the victim and the state after it are determined. */
  lemma SweepDetermined(c: Clock, a: Clock, r: Option<nat>, b: Clock, s: Option<nat>)
    requires WellFormed(c) && Sweep(c, a, r) && Sweep(c, b, s)
    ensures r == s && a == b
  {
    var n := |c.ref|;
    if r.Some? && s.Some? {
      var v, w := r.value, s.value;
      assert Distance(c.hand, v, n) == Distance(c.hand, w, n);
      assert v == w;
      assert a.ref == b.ref;
    }
  }

  lemma {:induction false} CountUpdate(bits: seq<bool>, i: nat, b: bool)
    requires i < |bits|
    ensures Count(bits[i := b]) == Count(bits) - (if bits[i] then 1 else 0) + (if b then 1 else 0)
  {
    var front := bits[..|bits| - 1];
    if i < |front| {
      CountUpdate(front, i, b);
      assert bits[i := b][..|front|] == front[i := b];
    } else {
      assert bits[i := b][..|front|] == front;
    }
  }

  lemma {:induction false} CountZero(bits: seq<bool>)
    ensures Count(bits) == 0 <==> forall i :: 0 <= i < |bits| ==> !bits[i]
  {
    if bits != [] {
      CountZero(bits[..|bits| - 1]);
    }
  }

  /** A sweep finds a victim exactly when there is one, and removes just that one. */
  lemma SweepCount(c: Clock, c': Clock, r: Option<nat>)
    requires WellFormed(c) && Sweep(c, c', r)
    ensures WellFormed(c')
    ensures r.Some? <==> Count(c.member) > 0
    ensures r.Some? ==> Count(c'.member) == Count(c.member) - 1
  {
    CountZero(c.member);
    if r.Some? {
      CountUpdate(c.member, r.value, false);
    }
  }

  // ---------------------------------------------------------------- whole runs

  datatype Event = Pinned(frame: nat) | Unpinned(frame: nat) | Swept(victim: Option<nat>)

  ghost predicate Step(c: Clock, e: Event, c': Clock)
    requires WellFormed(c)
  {
    match e
    case Pinned(f) => c' == PinStep(c, f)
    case Unpinned(f) => c' == UnpinStep(c, f)
    case Swept(r) => Sweep(c, c', r)
  }

  /** The states passed through by the given events, from a new replacer of n frames. */
  ghost predicate Run(n: nat, es: seq<Event>, cs: seq<Clock>) {
    && |cs| == |es| + 1 && cs[0] == Fresh(n)
    && forall i :: 0 <= i < |es| ==> WellFormed(cs[i]) && Step(cs[i], es[i], cs[i + 1])
  }

  /** Frame f was unpinned, and since then neither pinned nor evicted. */
  ghost predicate Idle(es: seq<Event>, f: nat) {
    exists i :: 0 <= i < |es| && es[i] == Unpinned(f) && Untouched(es[i + 1..], f)
  }

  ghost predicate Untouched(es: seq<Event>, f: nat) {
    Pinned(f) !in es && Swept(Some(f)) !in es
  }

  lemma UntouchedSnoc(es: seq<Event>, e: Event, f: nat)
    ensures Untouched(es + [e], f) <==> Untouched(es, f) && e != Pinned(f) && e != Swept(Some(f))
  {
    assert forall x :: x in es + [e] <==> x in es || x == e;
  }

  /** After one more event a frame is idle if it is unpinned now, or was idle and is left alone. */
  lemma IdleAfter(es: seq<Event>, e: Event, f: nat)
    requires e == Unpinned(f) || (Idle(es, f) && e != Pinned(f) && e != Swept(Some(f)))
    ensures Idle(es + [e], f)
  {
    hide Untouched;
    var all := es + [e];
    if e == Unpinned(f) {
      NothingTouches(f);
      assert all[|es|] == e && all[|es| + 1..] == [];
    } else {
      var i :| 0 <= i < |es| && es[i] == Unpinned(f) && Untouched(es[i + 1..], f);
      UntouchedSnoc(es[i + 1..], e, f);
      assert all[i] == es[i] && all[i + 1..] == es[i + 1..] + [e];
    }
  }

  lemma NothingTouches(f: nat)
    ensures Untouched([], f)
  {
  }

  /** And only then. */
  lemma IdleBefore(es: seq<Event>, e: Event, f: nat)
    requires Idle(es + [e], f) && e != Unpinned(f)
    ensures Idle(es, f) && e != Pinned(f) && e != Swept(Some(f))
  {
    hide Untouched;
    var all := es + [e];
    var i :| 0 <= i < |all| && all[i] == Unpinned(f) && Untouched(all[i + 1..], f);
    assert all[i + 1..] == es[i + 1..] + [e];
    UntouchedSnoc(es[i + 1..], e, f);
    assert es[i] == Unpinned(f);
  }

  lemma IdleSnoc(es: seq<Event>, e: Event, f: nat)
    ensures Idle(es + [e], f) <==> e == Unpinned(f) || (Idle(es, f) && e != Pinned(f) && e != Swept(Some(f)))
  {
    hide Idle;
    if e == Unpinned(f) || (Idle(es, f) && e != Pinned(f) && e != Swept(Some(f))) {
      IdleAfter(es, e, f);
    }
    if Idle(es + [e], f) && e != Unpinned(f) {
      IdleBefore(es, e, f);
    }
  }

  /** In every run the evictable frames are exactly the idle ones. */
  lemma {:induction false} MembersAreIdle(n: nat, es: seq<Event>, cs: seq<Clock>, f: nat)
    requires Run(n, es, cs) && f < n
    ensures WellFormed(cs[|es|]) && |cs[|es|].ref| == n
    ensures cs[|es|].member[f] <==> Idle(es, f)
    decreases |es|
  {
    hide Idle, Sweep;
    if es == [] {
      NeverIdle(f);
    } else {
      var k := |es| - 1;
      var front := es[..k];
      assert es == front + [es[k]];
      assert Run(n, front, cs[..k + 1]);
      MembersAreIdle(n, front, cs[..k + 1], f);
      IdleSnoc(front, es[k], f);
      StepMember(cs[k], es[k], cs[k + 1], f);
    }
  }

  lemma NeverIdle(f: nat)
    ensures !Idle([], f)
  {
  }

  lemma StepMember(c: Clock, e: Event, c': Clock, f: nat)
    requires WellFormed(c) && Step(c, e, c') && f < |c.ref|
    ensures WellFormed(c') && |c'.ref| == |c.ref|
    ensures c'.member[f] <==> e == Unpinned(f) || (c.member[f] && e != Pinned(f) && e != Swept(Some(f)))
  {
  }

  /**
   * No run evicts a frame that was pinned since its last unpin, and a sweep comes back empty only if
   * no frame is idle.
   */
  lemma EvictsOnlyIdle(n: nat, es: seq<Event>, cs: seq<Clock>, k: nat)
    requires Run(n, es, cs) && k < |es| && es[k].Swept?
    ensures es[k].victim.Some? ==> es[k].victim.value < n && Idle(es[..k], es[k].victim.value)
    ensures es[k].victim.None? ==> forall f :: 0 <= f < n ==> !Idle(es[..k], f)
  {
    hide Idle;
    assert Run(n, es[..k], cs[..k + 1]);
    assert Step(cs[k], es[k], cs[k + 1]);
    SameFrames(n, es[..k], cs[..k + 1]);
    forall f | 0 <= f < n ensures cs[k].member[f] <==> Idle(es[..k], f) {
      MembersAreIdle(n, es[..k], cs[..k + 1], f);
    }
  }

  lemma {:induction false} SameFrames(n: nat, es: seq<Event>, cs: seq<Clock>)
    requires Run(n, es, cs)
    ensures WellFormed(cs[|es|]) && |cs[|es|].ref| == n
    decreases |es|
  {
    if es != [] {
      var k := |es| - 1;
      assert Run(n, es[..k], cs[..k + 1]);
      SameFrames(n, es[..k], cs[..k + 1]);
      assert Step(cs[k], es[k], cs[k + 1]);
    }
  }

  // ---------------------------------------------------------------- second chances

  /** Where the hand stands: just behind the last victim. */
  ghost function HandAfter(n: nat, es: seq<Event>): (h: nat) {
    if es == [] then 0 else
      match es[|es| - 1]
      case Swept(Some(v)) => if v < n then Next(v, n) else 0
      case _ => HandAfter(n, es[..|es| - 1])
  }

  /**
   * Frame f was unpinned, and since then neither pinned nor evicted nor passed by the hand. On its
   * way to a victim that was unpinned as recently the hand has passed every frame.
   */
  ghost predicate Recent(n: nat, es: seq<Event>, f: nat) {
    es != [] &&
    var before := es[..|es| - 1];
    match es[|es| - 1]
    case Unpinned(g) => g == f || Recent(n, before, f)
    case Pinned(g) => g != f && Recent(n, before, f)
    case Swept(None) => Recent(n, before, f)
    case Swept(Some(v)) =>
      && v != f && Recent(n, before, f) && !Recent(n, before, v)
      && f < n && v < n && HandAfter(n, before) < n
      && Distance(HandAfter(n, before), v, n) < Distance(HandAfter(n, before), f, n)
  }

  /** In every run the reference bits are set exactly for the recently unpinned frames. */
  lemma {:induction false} BitsAreRecent(n: nat, es: seq<Event>, cs: seq<Clock>)
    requires Run(n, es, cs)
    ensures var c := cs[|es|];
            && WellFormed(c) && |c.ref| == n && c.hand == HandAfter(n, es)
            && forall f :: 0 <= f < n ==> (c.ref[f] <==> Recent(n, es, f)) && (c.ref[f] ==> c.member[f])
    decreases |es|
  {
    if es != [] {
      var k := |es| - 1;
      var front := es[..k];
      assert Run(n, front, cs[..k + 1]);
      BitsAreRecent(n, front, cs[..k + 1]);
      assert Step(cs[k], es[k], cs[k + 1]);
      StepBits(n, front, es[k], cs[k], cs[k + 1]);
      assert front + [es[k]] == es;
    }
  }

  lemma StepBits(n: nat, es: seq<Event>, e: Event, c: Clock, c': Clock)
    requires WellFormed(c) && Step(c, e, c') && |c.ref| == n && c.hand == HandAfter(n, es)
    requires forall f :: 0 <= f < n ==> (c.ref[f] <==> Recent(n, es, f)) && (c.ref[f] ==> c.member[f])
    ensures WellFormed(c') && |c'.ref| == n && c'.hand == HandAfter(n, es + [e])
    ensures forall f :: 0 <= f < n ==> (c'.ref[f] <==> Recent(n, es + [e], f)) && (c'.ref[f] ==> c'.member[f])
  {
    assert (es + [e])[..|es|] == es;
  }

  /**
   * Every run evicts the idle frame nearest to the hand among those not unpinned recently. Only if
   * all idle frames were unpinned recently, it evicts the nearest of them.
   */
  lemma SecondChance(n: nat, es: seq<Event>, cs: seq<Clock>, k: nat, v: nat)
    requires Run(n, es, cs) && k < |es| && es[k] == Swept(Some(v))
    ensures v < n && Idle(es[..k], v) && HandAfter(n, es[..k]) < n
    ensures Recent(n, es[..k], v) ==> forall f :: 0 <= f < n && Idle(es[..k], f) ==> Recent(n, es[..k], f)
    ensures forall f :: 0 <= f < n && f != v && Idle(es[..k], f) && (Recent(n, es[..k], f) ==> Recent(n, es[..k], v)) ==>
              Distance(HandAfter(n, es[..k]), v, n) < Distance(HandAfter(n, es[..k]), f, n)
  {
    hide Idle, Recent, HandAfter;
    var front := es[..k];
    EvictsOnlyIdle(n, es, cs, k);
    assert Run(n, front, cs[..k + 1]);
    assert Step(cs[k], es[k], cs[k + 1]);
    BitsAreRecent(n, front, cs[..k + 1]);
    forall f | 0 <= f < n ensures cs[k].member[f] <==> Idle(front, f) {
      MembersAreIdle(n, front, cs[..k + 1], f);
    }
  }

  /** A frame unpinned since the hand passed it is spared while another idle frame was not. */
  lemma RecentSpared(n: nat, es: seq<Event>, cs: seq<Clock>, k: nat, f: nat, other: nat)
    requires Run(n, es, cs) && k < |es| && es[k].Swept? && f < n && other < n
    requires Recent(n, es[..k], f) && Idle(es[..k], other) && !Recent(n, es[..k], other)
    ensures es[k] != Swept(Some(f))
  {
    hide Run, Idle, Recent, HandAfter;
    if es[k] == Swept(Some(f)) {
      SecondChance(n, es, cs, k, f);
    }
  }
}
