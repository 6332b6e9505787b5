/** One trial of the placement search and the search over many trials.

    A trial clears every roster, then resets each participant and lets it
    claim, in a given order. The search runs one trial per given order (the
    source draws each order by shuffling its list of participants in place)
    and keeps the list whenever a trial's mean satisfaction exceeds a
    threshold that starts at 0 and is never raised.
 */
module Trials {
  import opened Placement

  predicate Distinct<T(==)>(s: seq<T>) {
    forall i, j :: 0 <= i < j < |s| ==> s[i] != s[j]
  }

  /** `order` lists every participant of `people` exactly once. */
  predicate IsOrdering(order: seq<Participant>, people: set<Participant>) {
    Distinct(order) && (set x | x in order) == people
  }

  /** The participants of `s` that hold program `p`, in the order of `s`:
      the roster that a trial over `s` builds for `p`. */
  function Members(s: seq<Participant>, p: Program): (r: seq<Participant>)
    reads s
    ensures |r| <= |s|
  {
    if s == [] then []
    else Members(s[..|s| - 1], p) + (if s[|s| - 1].program == p then [s[|s| - 1]] else [])
  }

  /** A participant is in the roster built from `s` exactly when it occurs in
      `s` and holds that roster's program. */
  lemma {:induction false} MembersSpec(s: seq<Participant>, p: Program, x: Participant)
    ensures x in Members(s, p) <==> x in s && x.program == p
  {
    if s != [] {
      var init := s[..|s| - 1];
      MembersSpec(init, p, x);
      assert s == init + [s[|s| - 1]];
    }
  }

  /** Extending the order by one participant extends each roster by that
      participant exactly when it holds the roster's program. */
  lemma MembersSnoc(s: seq<Participant>, x: Participant, p: Program)
    ensures Members(s + [x], p) == Members(s, p) + (if x.program == p then [x] else [])
  {
    assert (s + [x])[..|s|] == s;
  }

  /** Rosters keep the order of the trial: the members drawn from an earlier
      stretch of the order precede those drawn from a later one. */
  lemma {:induction false} MembersAppend(s1: seq<Participant>, s2: seq<Participant>, p: Program)
    ensures Members(s1 + s2, p) == Members(s1, p) + Members(s2, p)
    decreases |s2|
  {
    if s2 == [] {
      assert s1 + s2 == s1;
    } else {
      var init := s2[..|s2| - 1];
      assert (s1 + s2)[..|s1 + s2| - 1] == s1 + init;
      MembersAppend(s1, init, p);
    }
  }

  /** No participant appears twice in a roster built from an order without repeats. */
  lemma {:induction false} MembersDistinct(s: seq<Participant>, p: Program)
    requires Distinct(s)
    ensures Distinct(Members(s, p))
  {
    if s != [] {
      var init := s[..|s| - 1];
      assert Distinct(init);
      MembersDistinct(init, p);
      assert s[|s| - 1] !in init;
      MembersSpec(init, p, s[|s| - 1]);
    }
  }

  /** The programs whose roster has no room left once the participants of
      `before` have claimed: the rosters a participant meets at its turn. */
  function FullAfter(programs: map<string, Program>, before: seq<Participant>): (r: set<Program>)
    reads before
  {
    set p | p in programs.Values && |Members(before, p)| >= p.capacity
  }

  /** The state a reset followed by a claim leaves `x` in when the
      participants of `before` claimed first: `x` holds the program of the
      first reached choice that admits its age and had room at its turn, and
      scores `|choices| + 1` minus that choice's rank; with no such choice it
      holds no program and scores 0. */
  predicate Settled(x: Participant, programs: map<string, Program>, before: seq<Participant>)
    reads x, before
  {
    var r := FirstFit(x.age, x.choices, programs, FullAfter(programs, before), 0);
    if r.None? then
      x.program == null && x.satisfaction == 0
    else
      x.program == programs[x.choices[r.value]] && x.satisfaction == |x.choices| + 1 - r.value
  }

  /** Every participant of `s` is settled against the participants before it. */
  predicate AllSettled(s: seq<Participant>, programs: map<string, Program>)
    reads s
  {
    forall k :: 0 <= k < |s| ==> Settled(s[k], programs, s[..k])
  }

  /** Settling one more participant against the ones before it extends a
      settled sequence. */
  lemma AllSettledSnoc(s: seq<Participant>, x: Participant, programs: map<string, Program>)
    requires AllSettled(s, programs) && Settled(x, programs, s)
    ensures AllSettled(s + [x], programs)
  {
    assert forall k :: 0 <= k < |s| ==> (s + [x])[k] == s[k] && (s + [x])[..k] == s[..k];
    assert (s + [x])[..|s|] == s;
  }

  /** The state a trial over `order` ends in: each roster lists, in the order
      of the trial, the participants holding its program and stays within
      capacity, and every participant of the order is settled against the
      participants before it. */
  predicate TrialOutcome(programs: map<string, Program>, order: seq<Participant>)
    reads programs.Values, order
  {
    RostersMatch(programs, order) && AllSettled(order, programs)
  }

  /** Each roster lists, in the order of `s`, the participants of `s` holding
      its program, and stays within capacity. */
  predicate RostersMatch(programs: map<string, Program>, s: seq<Participant>)
    reads programs.Values, s
  {
    forall p :: p in programs.Values ==>
      p.participants == Members(s, p) && |p.participants| <= p.capacity
  }

  /** The sum of the satisfaction scores of `s`. */
  function TotalSatisfaction(s: seq<Participant>): (r: int)
    reads s
  {
    if s == [] then 0 else TotalSatisfaction(s[..|s| - 1]) + s[|s| - 1].satisfaction
  }

  /** Once every participant is settled, the total lies between 0 and
      `(|choices| + 1)` per participant, and it is positive exactly when at
      least one participant holds a program. */
  lemma {:induction false} TotalSatisfactionBounds(s: seq<Participant>, programs: map<string, Program>)
    requires AllSettled(s, programs)
    ensures 0 <= TotalSatisfaction(s) <= (NumChoices + 1) * |s|
    ensures TotalSatisfaction(s) > 0 <==> exists j :: 0 <= j < |s| && s[j].program != null
  {
    if s != [] {
      var init := s[..|s| - 1];
      var last := s[|s| - 1];
      assert forall j :: 0 <= j < |init| ==> init[j] == s[j] && init[..j] == s[..j];
      assert Settled(last, programs, s[..|s| - 1]);
      TotalSatisfactionBounds(init, programs);
      assert last.program == null <==> last.satisfaction == 0;
      if last.program != null {
        assert s[|s| - 1].program != null;
      } else if TotalSatisfaction(init) > 0 {
        var j :| 0 <= j < |init| && init[j].program != null;
        assert s[j].program != null;
      } else {
        forall j | 0 <= j < |s|
          ensures s[j].program == null
        {
          if j < |init| {
            assert init[j] == s[j];
          }
        }
      }
    }
  }

  /** Some participant of `people` has a choice, before its first unknown
      name, whose program admits its age and has a positive capacity. Only
      fixed attributes enter, so this does not depend on any order. */
  predicate Placeable(programs: map<string, Program>, people: set<Participant>) {
    exists x, c :: x in people && 0 <= c < ScanLength(x.choices, programs) &&
      Eligible(x.age, programs[x.choices[c]]) && programs[x.choices[c]].capacity > 0
  }

  /** Empties the roster of every program of the catalog. */
  method ClearRosters(programs: map<string, Program>)
    modifies programs.Values
    ensures forall p :: p in programs.Values ==> p.participants == []
  {
    var remaining := programs.Values;
    while remaining != {}
      invariant remaining <= programs.Values
      invariant forall p :: p in programs.Values && p !in remaining ==> p.participants == []
      decreases remaining
    {
      var p :| p in remaining;
      p.participants := [];
      remaining := remaining - {p};
    }
  }

  /** The body of a trial for one participant: reset, then claim. `done`
      lists the participants that claimed before `x` in this trial, and the
      rosters are the ones they built. `x` ends settled against `done`, and
      the one roster `x` joins, if any, grows by `x`. */
  method ResetAndClaim(x: Participant, programs: map<string, Program>, ghost done: seq<Participant>)
    requires x !in done
    requires forall p :: p in programs.Values ==> p.participants == Members(done, p)
    modifies x, programs.Values
    ensures Settled(x, programs, done)
    ensures forall p :: p in programs.Values ==>
      p.participants == old(p.participants) + (if x.program == p then [x] else [])
    ensures x.program != null ==> |x.program.participants| <= x.program.capacity
  {
    x.Reset();
    assert FullPrograms(programs) == FullAfter(programs, done);
    var _ := x.ClaimNextBest(programs);
  }

  /** One turn of a trial: `x` follows the participants of `done`, whose
      trial state the catalog holds, and afterwards it holds the state of a
      trial over `done` followed by `x`. */
  method ClaimTurn(x: Participant, programs: map<string, Program>, ghost done: seq<Participant>)
    requires x !in done
    requires TrialOutcome(programs, done)
    modifies x, programs.Values
    ensures TrialOutcome(programs, done + [x])
  {
    label claim:
    ResetAndClaim(x, programs, done);
    forall p | p in programs.Values
      ensures p.participants == Members(done + [x], p) && |p.participants| <= p.capacity
    {
      assert Members(done, p) == old@claim(Members(done, p));
      MembersSnoc(done, x, p);
    }
    AllSettledSnoc(done, x, programs);
  }

  /** Resets each participant of `order` in turn and lets it claim, starting
      from empty rosters. */
  method ClaimInOrder(programs: map<string, Program>, order: seq<Participant>)
    requires Distinct(order)
    requires forall p :: p in programs.Values ==> p.participants == []
    modifies programs.Values, order
    ensures TrialOutcome(programs, order)
  {
    for k := 0 to |order|
      invariant TrialOutcome(programs, order[..k])
    {
      assert order[k] !in order[..k];
      assert order[..k + 1] == order[..k] + [order[k]];
      ClaimTurn(order[k], programs, order[..k]);
    }
    assert order[..|order|] == order;
  }

  /** At the end of a trial a participant is in a roster exactly when it holds
      that roster's program, so it is in at most one roster, and no roster
      lists anyone twice. */
  lemma OutcomeRosters(programs: map<string, Program>, order: seq<Participant>)
    requires Distinct(order) && TrialOutcome(programs, order)
    ensures forall j, p :: 0 <= j < |order| && p in programs.Values ==>
      (order[j] in p.participants <==> order[j].program == p)
    ensures forall p :: p in programs.Values ==> Distinct(p.participants)
  {
    forall j, p | 0 <= j < |order| && p in programs.Values
      ensures order[j] in p.participants <==> order[j].program == p
    {
      MembersSpec(order, p, order[j]);
    }
    forall p | p in programs.Values
      ensures Distinct(p.participants)
    {
      MembersDistinct(order, p);
    }
  }

  /** At the end of a trial every score is 0 (unplaced) or 2 to 5 (placed),
      every placement is a program of the catalog within whose age bounds the
      participant lies, and the total lies between 0 and 5 per participant. */
  lemma OutcomeScores(programs: map<string, Program>, order: seq<Participant>)
    requires AllSettled(order, programs)
    ensures forall j :: 0 <= j < |order| ==> order[j].satisfaction in {0, 2, 3, 4, 5}
    ensures forall j :: 0 <= j < |order| && order[j].program != null ==>
      order[j].program in programs.Values && Eligible(order[j].age, order[j].program)
    ensures 0 <= TotalSatisfaction(order) <= (NumChoices + 1) * |order|
  {
    TotalSatisfactionBounds(order, programs);
    forall j | 0 <= j < |order|
      ensures order[j].satisfaction in {0, 2, 3, 4, 5}
      ensures order[j].program != null ==>
        order[j].program in programs.Values && Eligible(order[j].age, order[j].program)
    {
      assert Settled(order[j], programs, order[..j]);
    }
  }

  /** Somebody placed in a trial had a reached choice that admits its age and
      has a positive capacity: the one it holds. */
  lemma PlacedIsPlaceable(programs: map<string, Program>, order: seq<Participant>, people: set<Participant>, j: nat)
    requires AllSettled(order, programs)
    requires (set x | x in order) == people
    requires j < |order| && order[j].program != null
    ensures Placeable(programs, people)
  {
    var x := order[j];
    assert Settled(x, programs, order[..j]);
    var full := FullAfter(programs, order[..j]);
    var c := FirstFit(x.age, x.choices, programs, full, 0).value;
    assert x in people;
    assert Takes(x.age, programs[x.choices[c]], full);
  }

  /** When the catalog can place somebody, every trial places somebody:
      either that participant takes the choice that makes it placeable, or
      the choice was full at its turn, so an earlier participant holds it. */
  lemma PlaceableIsPlaced(programs: map<string, Program>, order: seq<Participant>, people: set<Participant>)
    requires AllSettled(order, programs)
    requires (set x | x in order) == people
    requires Placeable(programs, people)
    ensures exists j :: 0 <= j < |order| && order[j].program != null
  {
    var x, c :| x in people && 0 <= c < ScanLength(x.choices, programs) &&
      Eligible(x.age, programs[x.choices[c]]) && programs[x.choices[c]].capacity > 0;
    assert x in order;
    var j :| 0 <= j < |order| && order[j] == x;
    var before := order[..j];
    assert Settled(x, programs, before);
    if x.program == null {
      var p := programs[x.choices[c]];
      assert p in FullAfter(programs, before);
      var y := Members(before, p)[0];
      MembersSpec(before, p, y);
      var i :| 0 <= i < |before| && before[i] == y;
      assert order[i].program != null;
    } else {
      assert order[j].program != null;
    }
  }

  /** The total of a trial is positive exactly when the catalog can place
      somebody at all; which order the trial used does not matter. */
  lemma OutcomePositive(programs: map<string, Program>, order: seq<Participant>, people: set<Participant>)
    requires AllSettled(order, programs)
    requires (set x | x in order) == people
    ensures TotalSatisfaction(order) > 0 <==> Placeable(programs, people)
  {
    TotalSatisfactionBounds(order, programs);
    if TotalSatisfaction(order) > 0 {
      var j :| 0 <= j < |order| && order[j].program != null;
      PlacedIsPlaceable(programs, order, people, j);
    }
    if Placeable(programs, people) {
      PlaceableIsPlaced(programs, order, people);
    }
  }

  /** One trial: every roster is emptied, then each participant of `order` in
      turn is reset and claims. Returns the total satisfaction. */
  method RunTrial(programs: map<string, Program>, order: seq<Participant>) returns (total: int)
    requires Distinct(order)
    modifies programs.Values, order
    ensures TrialOutcome(programs, order)
    ensures total == TotalSatisfaction(order)
  {
    ClearRosters(programs);
    ClaimInOrder(programs, order);
    total := TotalSatisfaction(order);
  }

  /** The trial loop. `shuffles[t]` is the order of trial `t`. Returns the
      retained list of participants, or None when no trial had a positive
      mean. Every trial's mean is positive exactly when the catalog can place
      somebody, and the retained list is the shuffled list itself, so it ends
      up holding the last order. */
  method Search(programs: map<string, Program>, people: set<Participant>, shuffles: seq<seq<Participant>>)
    returns (selected: Option<seq<Participant>>)
    requires people != {}
    requires forall t :: 0 <= t < |shuffles| ==> IsOrdering(shuffles[t], people)
    modifies programs.Values, people
    ensures selected.Some? <==> |shuffles| > 0 && Placeable(programs, people)
    ensures selected.Some? ==> selected.value == shuffles[|shuffles| - 1]
    ensures |shuffles| > 0 ==> TrialOutcome(programs, shuffles[|shuffles| - 1])
  {
    // The best mean seen so far; the source compares against it but never
    // updates it.
    var maxAverageSatisfaction := 0;
    // Whether the retained name refers to the shuffled list; it aliases that
    // list, so what it finally refers to is the list's last order.
    var retained := false;
    var randomParticipants: seq<Participant> := [];
    for t := 0 to |shuffles|
      invariant retained <==> t > 0 && Placeable(programs, people)
      invariant t > 0 ==>
        randomParticipants == shuffles[t - 1] && TrialOutcome(programs, randomParticipants)
    {
      randomParticipants := shuffles[t];
      var total := RunTrial(programs, randomParticipants);
      OutcomePositive(programs, randomParticipants, people);
      // The participant count is positive, so the mean exceeds the threshold
      // exactly when the total exceeds the threshold times the count.
      if total > maxAverageSatisfaction * |randomParticipants| {
        retained := true;
      }
    }
    selected := if retained then Some(randomParticipants) else None;
  }
}
