/**
  The per-participant step rule of the shrink-as-you-talk controller.

  Scales are integers counting thousandths of the CSS scale factor, so that
  `scale(1)` is 1000, `scale(0.1)` is 100 and one step of 0.002 is 2. With
  this unit every step and every clamp is exact.
 */
module Scale {

  /** Smallest size a talking participant shrinks to: `scale(0.1)`. */
  const MinScale: int := 100
  /** Natural size, the seed of every new participant and the cap: `scale(1)`. */
  const MaxScale: int := 1000
  /** Shrink per check while a participant talks: 0.002. */
  const TalkingStepSize: int := 2
  /** Growth per check while a participant is silent: 0.002. */
  const SilentStepSize: int := 2
  /**
    Period of the talking check, in milliseconds (also the transition length).
    Recorded only for reference: the model has no clock, and a check is a call.
   */
  const CheckTalkingInterval: nat := 100
  /** Period of the participant re-scan, in milliseconds; recorded only for reference, like the above. */
  const ReloadParticipantsInterval: nat := 3000

  /**
    One conference tile as one check sees it: the participant id read from
    the tile, whether the tile is a person (false for a screen-share tile) and
    whether its speaking indicator shows sound at that moment.
   */
  datatype Participant = Participant(id: string, isPerson: bool, talking: bool)

  /** What the person test and the speaking-indicator test give for one tile at one check. */
  datatype Reading = Reading(isPerson: bool, talking: bool)

  /** What a check decides about one tile; never stored. */
  datatype Classification = Talking | Silent | NotAPerson

  predicate InRange(s: int) {
    MinScale <= s <= MaxScale
  }

  function Max(a: int, b: int): (r: int) { if a < b then b else a }

  function Min(a: int, b: int): (r: int) { if a < b then a else b }

  /** The person test comes first; the speaking indicator only matters for persons. */
  function Classify(p: Participant): (c: Classification)
    ensures c == NotAPerson <==> !p.isPerson
    ensures c == Talking <==> p.isPerson && p.talking
    ensures c == Silent <==> p.isPerson && !p.talking
  {
    if !p.isPerson then NotAPerson
    else if p.talking then Talking
    else Silent
  }

  /**
    The new scale of one tile from its stored scale: a screen-share jumps to full
    size at once, a talker shrinks by one step and a silent person grows by one
    step, each clamped at its bound.
   */
  function NextScale(prev: int, c: Classification): (r: int)
    // a screen-share is reset in one step, whatever it was
    ensures c == NotAPerson ==> r == MaxScale
    // a talker never grows from a legal scale and never goes below the minimum
    ensures c == Talking ==> MinScale <= r && (MinScale <= prev ==> r <= prev)
    // ... and moves by exactly one step unless that would pass the minimum
    ensures c == Talking && MinScale <= prev - TalkingStepSize ==> r == prev - TalkingStepSize
    ensures c == Talking && prev - TalkingStepSize < MinScale ==> r == MinScale
    // a silent person never shrinks from a legal scale and never goes above the maximum
    ensures c == Silent ==> r <= MaxScale && (prev <= MaxScale ==> prev <= r)
    ensures c == Silent && prev + SilentStepSize <= MaxScale ==> r == prev + SilentStepSize
    ensures c == Silent && MaxScale < prev + SilentStepSize ==> r == MaxScale
    // the legal range is closed under a step
    ensures InRange(prev) ==> InRange(r)
  {
    match c
    case NotAPerson => MaxScale
    case Talking => Max(MinScale, prev - TalkingStepSize)
    case Silent => Min(MaxScale, prev + SilentStepSize)
  }

  /** The stored scale after `k` consecutive checks that all classify the tile as `c`. */
  function Ticks(s: int, c: Classification, k: nat): (r: int)
  {
    if k == 0 then s else NextScale(Ticks(s, c, k - 1), c)
  }

  /** `k` talking checks from a legal scale `s` land on `max(MinScale, s - k*step)`. */
  lemma {:induction false} TalkingTicksClosedForm(s: int, k: nat)
    requires MinScale <= s
    ensures Ticks(s, Talking, k) == Max(MinScale, s - k * TalkingStepSize)
  {
    if k > 0 {
      TalkingTicksClosedForm(s, k - 1);
    }
  }

  /** `k` silent checks from a legal scale `s` land on `min(MaxScale, s + k*step)`. */
  lemma {:induction false} SilentTicksClosedForm(s: int, k: nat)
    requires s <= MaxScale
    ensures Ticks(s, Silent, k) == Min(MaxScale, s + k * SilentStepSize)
  {
    if k > 0 {
      SilentTicksClosedForm(s, k - 1);
    }
  }

  /** Talking never makes the scale grow from one check to the next. */
  lemma TalkingTicksMonotone(s: int, k: nat)
    requires MinScale <= s
    ensures Ticks(s, Talking, k + 1) <= Ticks(s, Talking, k)
  {
    TalkingTicksClosedForm(s, k);
    TalkingTicksClosedForm(s, k + 1);
  }

  /**
    Continuous talking takes a full-size tile to the minimum in exactly
    (MaxScale - MinScale) / TalkingStepSize = 450 checks, 45 seconds at one
    check per 100 ms, and never below it however long it goes on.
   */
  lemma FullShrinkTicks()
    ensures (MaxScale - MinScale) / TalkingStepSize == 450
    ensures Ticks(MaxScale, Talking, 450) == MinScale
    ensures forall k: nat :: k < 450 ==> MinScale < Ticks(MaxScale, Talking, k)
    ensures forall k: nat :: MinScale <= Ticks(MaxScale, Talking, k) <= MaxScale
  {
    forall k: nat
      ensures Ticks(MaxScale, Talking, k) == Max(MinScale, MaxScale - k * TalkingStepSize)
    {
      TalkingTicksClosedForm(MaxScale, k);
    }
  }

  /** Continuous silence brings a fully shrunk tile back to full size in exactly 450 checks. */
  lemma FullRecoveryTicks()
    ensures (MaxScale - MinScale) / SilentStepSize == 450
    ensures Ticks(MinScale, Silent, 450) == MaxScale
    ensures forall k: nat :: k < 450 ==> Ticks(MinScale, Silent, k) < MaxScale
    ensures forall k: nat :: MinScale <= Ticks(MinScale, Silent, k) <= MaxScale
  {
    forall k: nat
      ensures Ticks(MinScale, Silent, k) == Min(MaxScale, MinScale + k * SilentStepSize)
    {
      SilentTicksClosedForm(MinScale, k);
    }
  }

  /** A tile stored at 0.5 that talks for ten checks ends at 0.48. */
  lemma TenTalkingTicksFromHalf()
    ensures Ticks(500, Talking, 10) == 480
  {
    TalkingTicksClosedForm(500, 10);
  }
}
