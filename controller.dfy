/**
  The controller's module-level state and its lifecycle: the participant list
  of the last scan, the scale memory, the scale last written per id,
  the two interval timers and the `active` flag that the menu toggle flips.

  Reading the page is an input: each method that scans in the source takes
  the participants that scan would find, and each talking check takes the
  person and speaking-indicator readings of every scanned tile at that check.
  A timer is modelled as a flag that is set while its interval is armed; the
  scheduler itself calls `SetupParticipants` and `CheckTalkers`.
 */
module Controller {
  import opened Scale
  import opened Store

  class ShrinkController {
    /** The tiles found by the last scan; a check uses their ids and takes fresh readings. */
    var participants: seq<Participant>
    /** The scale memory, by participant id. */
    var currentScales: map<string, int>
    /** The scale last written into a transform, by participant id. */
    var applied: map<string, int>
    /** The participant re-scan interval is armed. */
    var reloadTimerArmed: bool
    /** The talking-check interval is armed. */
    var checkTimerArmed: bool
    var active: bool

    /**
      The controller's invariant: both timers run exactly while it is active,
      stored scales are legal, the last transform written for each id is its
      stored scale (natural size where none was written), while the checks
      run every scanned participant has a stored scale, and while they do not
      no transform is written and every stored scale is natural size (only the
      re-scan writes then, and it seeds 1).
     */
    ghost predicate Valid()
      reads this
    {
      && reloadTimerArmed == active
      && checkTimerArmed == active
      && AllInRange(currentScales)
      && Consistent(ScaleStore(currentScales, applied))
      && (active ==> Covers(currentScales, participants))
      && (!active ==> applied == map[] && forall id :: id in currentScales ==> currentScales[id] == MaxScale)
    }

    /** The state when the script loads: nothing scanned, nothing stored, inactive. */
    constructor ()
      ensures Valid()
      ensures participants == [] && currentScales == map[] && applied == map[]
      ensures !reloadTimerArmed && !checkTimerArmed && !active
    {
      participants := [];
      currentScales := map[];
      applied := map[];
      reloadTimerArmed := false;
      checkTimerArmed := false;
      active := false;
    }

    /**
      The re-scan: replace the participant list by what the scan found and give
      every id not seen before the natural size; stored ids keep their scale.
     */
    method SetupParticipants(discovered: seq<Participant>)
      requires Valid()
      modifies this
      ensures Valid()
      ensures participants == discovered
      ensures currentScales == Seed(old(currentScales), discovered)
      ensures Covers(currentScales, discovered)
      ensures forall id :: id in old(currentScales) ==> currentScales[id] == old(currentScales)[id]
      ensures forall id :: id in currentScales <==> id in old(currentScales) || id in Ids(discovered)
      ensures applied == old(applied)
      ensures reloadTimerArmed == old(reloadTimerArmed) && checkTimerArmed == old(checkTimerArmed)
      ensures active == old(active)
    {
      ghost var before := currentScales;
      participants := discovered;
      var scales := currentScales;
      var i := 0;
      while i < |discovered|
        invariant 0 <= i <= |discovered|
        invariant scales == Seed(before, discovered[..i])
      {
        assert discovered[..i + 1][..i] == discovered[..i];
        var id := discovered[i].id;
        if id !in scales {
          scales := scales[id := MaxScale];
        }
        i := i + 1;
      }
      assert discovered[..i] == discovered;
      currentScales := scales;
      SeedPreservesRange(before, discovered);
      SeedConsistent(ScaleStore(before, applied), discovered);
      SeedCovers(before, discovered);
    }

    /**
      One talking check, run by the armed check timer: classify every scanned
      tile by its readings at this check (`readings[i]` for tile `i`), step the
      tiles in order, and store and write a tile's scale only when it moved.
     */
    method CheckTalkers(readings: seq<Reading>)
      requires Valid()
      requires checkTimerArmed
      requires |readings| == |participants|
      modifies this`currentScales, this`applied
      ensures Valid()
      ensures ScaleStore(currentScales, applied) ==
        Tick(ScaleStore(old(currentScales), old(applied)), Observe(participants, readings))
    {
      ghost var start := ScaleStore(currentScales, applied);
      ghost var observed := Observe(participants, readings);
      assert Covers(start.scales, observed);
      var i := 0;
      while i < |participants|
        invariant 0 <= i <= |participants|
        invariant ScaleStore(currentScales, applied) == Tick(start, observed[..i])
      {
        assert observed[..i + 1][..i] == observed[..i];
        var participant := Participant(participants[i].id, readings[i].isPerson, readings[i].talking);
        assert participant == observed[i];
        var newScale := NextScale(currentScales[participant.id], Classify(participant));
        if newScale != currentScales[participant.id] {
          currentScales := currentScales[participant.id := newScale];
          applied := applied[participant.id := newScale];
        }
        i := i + 1;
      }
      assert observed[..i] == observed;
      TickPreservesRange(start, observed);
      TickConsistent(start, observed);
    }

    /** Forget every stored scale and remove every transform written. */
    method ClearScales()
      modifies this`currentScales, this`applied
      ensures currentScales == map[] && applied == map[]
    {
      currentScales := map[];
      applied := map[];
    }

    /** Start: scan and seed at once, then arm both timers. */
    method Init(discovered: seq<Participant>)
      requires Valid()
      requires !active
      modifies this
      ensures Valid()
      ensures active && reloadTimerArmed && checkTimerArmed
      ensures participants == discovered
      ensures currentScales == Seed(old(currentScales), discovered)
      ensures applied == old(applied) && applied == map[]
      // whether after a stop or after pre-seeding while inactive, everyone starts at natural size
      ensures forall id :: id in currentScales ==> currentScales[id] == MaxScale
    {
      SetupParticipants(discovered);
      reloadTimerArmed := true;
      checkTimerArmed := true;
      active := true;
    }

    /** Stop: disarm both timers, forget every scale, restore every tile's natural size. */
    method Stop()
      requires Valid()
      modifies this
      ensures Valid()
      ensures !active && !reloadTimerArmed && !checkTimerArmed
      ensures currentScales == map[] && applied == map[]
      ensures participants == old(participants)
    {
      reloadTimerArmed := false;
      checkTimerArmed := false;
      ClearScales();
      active := false;
    }

    /** The menu entry's click: stop when active, start otherwise. */
    method OnToggle(discovered: seq<Participant>)
      requires Valid()
      modifies this
      ensures Valid()
      ensures active == !old(active)
      ensures reloadTimerArmed == active && checkTimerArmed == active
      ensures old(active) ==> currentScales == map[] && applied == map[] && participants == old(participants)
      ensures !old(active) ==>
        participants == discovered && currentScales == Seed(old(currentScales), discovered) && applied == map[]
      ensures !old(active) ==> forall id :: id in currentScales ==> currentScales[id] == MaxScale
    {
      if active {
        Stop();
      } else {
        Init(discovered);
      }
    }
  }

  /**
    A session as the page drives it: the menu's re-scans seed the store while
    inactive, then switch on with one silent person, check, let them talk,
    switch off and on again.
   */
  method Session(id: string)
  {
    var c := new ShrinkController();
    var alice := Participant(id, true, false);
    c.SetupParticipants([alice]);
    assert !c.active && c.currentScales == map[id := MaxScale];
    c.OnToggle([alice]);
    assert c.active && c.currentScales == map[id := MaxScale];

    // silent at natural size: nothing moves and nothing is written
    c.CheckTalkers([Reading(true, false)]);
    assert c.currentScales == map[id := MaxScale] && c.applied == map[];

    // starts talking: the next check steps one down, and the transform follows
    c.CheckTalkers([Reading(true, true)]);
    assert c.currentScales[id] == MaxScale - TalkingStepSize;
    assert c.applied[id] == MaxScale - TalkingStepSize;

    // switching off forgets everything; switching on starts from natural size
    c.OnToggle([alice]);
    assert !c.active && c.currentScales == map[] && c.applied == map[];
    c.OnToggle([alice]);
    assert c.active && c.currentScales == map[id := MaxScale];
  }
}
