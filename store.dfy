/**
  The scale memory shared by the two periodic tasks, and what one pass of each
  task does to it: the re-scan seeds unseen ids, the talking check steps every
  tile in order and writes a transform only where the scale moved.

  `scales` is the stored scale per participant id; `applied` is the scale last
  written into a transform for that id (the source writes into each element,
  so two tiles sharing an id, or a tile re-created after a write, are not
  told apart here). An id with no `applied` entry has had no transform
  written since the last stop.
 */
module Store {
  import opened Scale

  datatype ScaleStore = ScaleStore(scales: map<string, int>, applied: map<string, int>)

  /** The ids of a participant list. */
  function Ids(ps: seq<Participant>): (r: set<string>)
  {
    set i | 0 <= i < |ps| :: ps[i].id
  }

  /** Every stored scale lies within the legal range. */
  predicate AllInRange(m: map<string, int>)
  {
    forall id :: id in m ==> InRange(m[id])
  }

  /** Every participant of the list has a stored scale. */
  predicate Covers(m: map<string, int>, ps: seq<Participant>)
  {
    forall i :: 0 <= i < |ps| ==> ps[i].id in m
  }

  /** Ids listed at no position in `ps`. */
  predicate NotListed(id: string, ps: seq<Participant>)
  {
    forall i :: 0 <= i < |ps| ==> ps[i].id != id
  }

  /** No two participants of the list share an id. */
  predicate DistinctIds(ps: seq<Participant>)
  {
    forall i, j :: 0 <= i < j < |ps| ==> ps[i].id != ps[j].id
  }

  /** The scale last written for an id, or natural size if nothing was written. */
  function Displayed(applied: map<string, int>, id: string): (r: int)
  {
    if id in applied then applied[id] else MaxScale
  }

  /** The last transform written for every id is the scale the store holds for it. */
  predicate Consistent(st: ScaleStore)
  {
    && st.applied.Keys <= st.scales.Keys
    && forall id :: id in st.scales ==> Displayed(st.applied, id) == st.scales[id]
  }

  /**
    The re-scan's seeding pass, one participant after the other: an id with no
    entry gets the natural size, an id that has one keeps it.
   */
  function Seed(m: map<string, int>, ps: seq<Participant>): (r: map<string, int>)
    ensures r.Keys == m.Keys + Ids(ps)
    ensures forall id :: id in m ==> r[id] == m[id]
    ensures forall id :: id in r && id !in m ==> r[id] == MaxScale
    decreases |ps|
  {
    if ps == [] then m
    else
      var prefix, last := ps[..|ps| - 1], ps[|ps| - 1];
      assert ps == prefix + [last];
      var before := Seed(m, prefix);
      if last.id in before then before else before[last.id := MaxScale]
  }

  /** A re-scan that finds only ids already stored changes nothing. */
  lemma SeedKnownIds(m: map<string, int>, ps: seq<Participant>)
    requires Covers(m, ps)
    ensures Seed(m, ps) == m
  {
    assert Ids(ps) <= m.Keys;
  }

  /**
    The scanned tiles as one check sees them: each keeps its id and takes the
    person and speaking-indicator readings of that check.
   */
  function Observe(ps: seq<Participant>, rs: seq<Reading>): (r: seq<Participant>)
    requires |rs| == |ps|
    ensures |r| == |ps|
    ensures forall i :: 0 <= i < |ps| ==> r[i].id == ps[i].id
    ensures forall i :: 0 <= i < |ps| ==> r[i].isPerson == rs[i].isPerson && r[i].talking == rs[i].talking
  {
    seq(|ps|, i requires 0 <= i < |ps| => Participant(ps[i].id, rs[i].isPerson, rs[i].talking))
  }

  /** Seeding keeps every stored scale legal. */
  lemma SeedPreservesRange(m: map<string, int>, ps: seq<Participant>)
    requires AllInRange(m)
    ensures AllInRange(Seed(m, ps))
  {
  }

  /** Seeding afterwards covers every participant of the scanned list. */
  lemma SeedCovers(m: map<string, int>, ps: seq<Participant>)
    ensures Covers(Seed(m, ps), ps)
  {
    var r := Seed(m, ps);
    forall i | 0 <= i < |ps| ensures ps[i].id in r {
      assert ps[i].id in Ids(ps);
    }
  }

  /** Seeding a consistent store keeps it consistent: a new entry has had no write and holds natural size. */
  lemma SeedConsistent(st: ScaleStore, ps: seq<Participant>)
    requires Consistent(st)
    ensures Consistent(ScaleStore(Seed(st.scales, ps), st.applied))
  {
  }

  /** One step of the talking check for one tile: store and write only when the scale moved. */
  function TickOne(st: ScaleStore, p: Participant): (r: ScaleStore)
    requires p.id in st.scales
    ensures r.scales.Keys == st.scales.Keys
    ensures r.scales[p.id] == NextScale(st.scales[p.id], Classify(p))
    ensures forall id :: id in st.scales && id != p.id ==> r.scales[id] == st.scales[id]
    // no write when the scale did not move ...
    ensures r.scales[p.id] == st.scales[p.id] ==> r.applied == st.applied
    // ... and the tile's own transform, only, when it did
    ensures r.scales[p.id] != st.scales[p.id] ==> r.applied == st.applied[p.id := r.scales[p.id]]
  {
    var prev := st.scales[p.id];
    var newScale := NextScale(prev, Classify(p));
    if newScale != prev then
      ScaleStore(st.scales[p.id := newScale], st.applied[p.id := newScale])
    else
      st
  }

  /** One whole talking check: every listed tile in order, each from the scale left by the ones before. */
  function Tick(st: ScaleStore, ps: seq<Participant>): (r: ScaleStore)
    requires Covers(st.scales, ps)
    ensures r.scales.Keys == st.scales.Keys
    ensures r.applied.Keys <= st.applied.Keys + Ids(ps)
    decreases |ps|
  {
    if ps == [] then st
    else
      var prefix, last := ps[..|ps| - 1], ps[|ps| - 1];
      assert forall i :: 0 <= i < |prefix| ==> prefix[i] == ps[i];
      assert Ids(ps) == Ids(prefix) + {last.id};
      TickOne(Tick(st, prefix), last)
  }

  /** A check keeps every stored scale within the legal range. */
  lemma {:induction false} TickPreservesRange(st: ScaleStore, ps: seq<Participant>)
    requires Covers(st.scales, ps)
    requires AllInRange(st.scales)
    ensures AllInRange(Tick(st, ps).scales)
  {
    if ps != [] {
      var prefix := ps[..|ps| - 1];
      assert forall i :: 0 <= i < |prefix| ==> prefix[i] == ps[i];
      TickPreservesRange(st, prefix);
    }
  }

  /** A check keeps the last transform written for every id equal to its stored scale. */
  lemma {:induction false} TickConsistent(st: ScaleStore, ps: seq<Participant>)
    requires Covers(st.scales, ps)
    requires Consistent(st)
    ensures Consistent(Tick(st, ps))
  {
    if ps != [] {
      var prefix := ps[..|ps| - 1];
      assert forall i :: 0 <= i < |prefix| ==> prefix[i] == ps[i];
      TickConsistent(st, prefix);
    }
  }

  /** A check touches neither the scale nor the transform of an id that is not listed. */
  lemma {:induction false} TickFrame(st: ScaleStore, ps: seq<Participant>, id: string)
    requires Covers(st.scales, ps)
    requires NotListed(id, ps)
    ensures id in st.scales ==> Tick(st, ps).scales[id] == st.scales[id]
    ensures id in Tick(st, ps).applied <==> id in st.applied
    ensures id in st.applied ==> Tick(st, ps).applied[id] == st.applied[id]
  {
    if ps != [] {
      var prefix := ps[..|ps| - 1];
      assert forall i :: 0 <= i < |prefix| ==> prefix[i] == ps[i];
      TickFrame(st, prefix, id);
    }
  }

  /** A check where no tile's scale moves writes nothing at all. */
  lemma {:induction false} TickQuiescent(st: ScaleStore, ps: seq<Participant>)
    requires Covers(st.scales, ps)
    requires forall i :: 0 <= i < |ps| ==> NextScale(st.scales[ps[i].id], Classify(ps[i])) == st.scales[ps[i].id]
    ensures Tick(st, ps) == st
  {
    if ps != [] {
      var prefix := ps[..|ps| - 1];
      assert forall i :: 0 <= i < |prefix| ==> prefix[i] == ps[i];
      TickQuiescent(st, prefix);
    }
  }

  /**
    With distinct ids, a check gives each listed tile exactly one step from its
    stored scale, and writes its transform exactly when that step moved it.
   */
  lemma {:induction false} TickDistinct(st: ScaleStore, ps: seq<Participant>, k: nat)
    requires Covers(st.scales, ps)
    requires DistinctIds(ps)
    requires k < |ps|
    ensures Tick(st, ps).scales[ps[k].id] == NextScale(st.scales[ps[k].id], Classify(ps[k]))
    ensures Tick(st, ps).scales[ps[k].id] != st.scales[ps[k].id] ==>
      ps[k].id in Tick(st, ps).applied && Tick(st, ps).applied[ps[k].id] == Tick(st, ps).scales[ps[k].id]
    ensures Tick(st, ps).scales[ps[k].id] == st.scales[ps[k].id] ==>
      (ps[k].id in Tick(st, ps).applied <==> ps[k].id in st.applied) &&
      (ps[k].id in st.applied ==> Tick(st, ps).applied[ps[k].id] == st.applied[ps[k].id])
  {
    var prefix := ps[..|ps| - 1];
    assert forall i :: 0 <= i < |prefix| ==> prefix[i] == ps[i];
    if k == |ps| - 1 {
      TickFrame(st, prefix, ps[k].id);
    } else {
      TickDistinct(st, prefix, k);
    }
  }

  /** The scale half of `TickDistinct`, on its own. */
  lemma TickDistinctScale(st: ScaleStore, ps: seq<Participant>, k: nat)
    requires Covers(st.scales, ps)
    requires DistinctIds(ps)
    requires k < |ps|
    ensures Tick(st, ps).scales[ps[k].id] == NextScale(st.scales[ps[k].id], Classify(ps[k]))
  {
    TickDistinct(st, ps, k);
  }

  /** A silent person whose tile is at natural size stays there, and nothing is written. */
  lemma SilentAtFullSizeWritesNothing(st: ScaleStore, p: Participant)
    requires p.id in st.scales && st.scales[p.id] == MaxScale
    requires p.isPerson && !p.talking
    ensures Tick(st, [p]) == st
  {
    TickQuiescent(st, [p]);
  }

  /** `n` talking checks in a row over the same scanned list. */
  function Checks(st: ScaleStore, ps: seq<Participant>, n: nat): (r: ScaleStore)
    requires Covers(st.scales, ps)
    ensures r.scales.Keys == st.scales.Keys
  {
    if n == 0 then st else Tick(Checks(st, ps, n - 1), ps)
  }

  /**
    With distinct ids, `n` checks leave a listed participant exactly where `n`
    single steps of its classification take its stored scale: the closed forms
    about `Ticks` apply to the store.
   */
  lemma {:induction false} RepeatedChecks(st: ScaleStore, ps: seq<Participant>, k: nat, n: nat)
    requires Covers(st.scales, ps)
    requires DistinctIds(ps)
    requires k < |ps|
    ensures Checks(st, ps, n).scales[ps[k].id] == Ticks(st.scales[ps[k].id], Classify(ps[k]), n)
  {
    if n > 0 {
      var id, c := ps[k].id, Classify(ps[k]);
      var before := Checks(st, ps, n - 1);
      RepeatedChecks(st, ps, k, n - 1);
      assert before.scales[id] == Ticks(st.scales[id], c, n - 1);
      TickDistinctScale(before, ps, k);
      assert Checks(st, ps, n).scales[id] == NextScale(before.scales[id], c);
      assert Ticks(st.scales[id], c, n) == NextScale(Ticks(st.scales[id], c, n - 1), c);
    }
  }

  /**
    A person who talks through 450 checks from natural size ends at the
    minimum, and no earlier check takes them there.
   */
  lemma FullShrinkChecks(st: ScaleStore, ps: seq<Participant>, k: nat)
    requires Covers(st.scales, ps)
    requires DistinctIds(ps)
    requires k < |ps| && ps[k].isPerson && ps[k].talking
    requires st.scales[ps[k].id] == MaxScale
    ensures Checks(st, ps, 450).scales[ps[k].id] == MinScale
    ensures forall n: nat :: n < 450 ==> MinScale < Checks(st, ps, n).scales[ps[k].id]
  {
    FullShrinkTicks();
    forall n: nat ensures Checks(st, ps, n).scales[ps[k].id] == Ticks(MaxScale, Talking, n) {
      RepeatedChecks(st, ps, k, n);
    }
  }
}
