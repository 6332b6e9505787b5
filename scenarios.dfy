/** Small catalogs run through one claim, one trial or the search, showing
    what the contracts of the claim, the trial and the search let a caller
    conclude. */
module Scenarios {
  import opened Placement
  import opened Trials

  /** One participant whose first choice admits it and has room: it is placed
      there and keeps the full score. */
  method FirstChoiceTaken() returns (joined: string, score: int)
    ensures joined == "X" && score == NumChoices + 1
  {
    var x := new Program("X", 5, 15, 1);
    var programs := map["X" := x];
    var kid := new Participant("Ada", 10, "Oak", "X", "Y", "Z", "W");
    kid.Reset();
    assert x !in FullPrograms(programs);
    var claimed := kid.ClaimNextBest(programs);
    joined := claimed.name;
    score := kid.satisfaction;
  }

  /** A first choice that names no program ends the scan, although the second
      choice would admit the participant and has room. */
  method UnknownFirstChoice() returns (placed: bool, score: int, rosterSize: nat)
    ensures !placed && score == 0 && rosterSize == 0
  {
    var x := new Program("X", 5, 15, 1);
    var programs := map["X" := x];
    var kid := new Participant("Ada", 10, "Oak", "Nowhere", "X", "X", "X");
    kid.Reset();
    var claimed := kid.ClaimNextBest(programs);
    placed := claimed != null;
    score := kid.satisfaction;
    rosterSize := |x.participants|;
  }

  /** Two participants want the one seat of X first and name nothing else
      that exists; in a trial, whoever comes first in the order takes the
      seat, and the other ends unplaced. */
  method Contention() returns (firstScore: int, secondScore: int, secondPlaced: bool, total: int)
    ensures firstScore == 5 && secondScore == 0 && !secondPlaced && total == 5
  {
    var x := new Program("X", 5, 15, 1);
    var programs := map["X" := x];
    var a := new Participant("Ada", 10, "Oak", "X", "Y", "Z", "W");
    var b := new Participant("Bo", 11, "Elm", "X", "Y", "Z", "W");
    total := RunTrial(programs, [a, b]);
    FirstTakesSeat(programs, x, a, b);
    SecondFindsItFull(programs, x, a, b);
    firstScore := a.satisfaction;
    secondScore := b.satisfaction;
    secondPlaced := b.program != null;
    assert TotalSatisfaction([a]) == a.satisfaction by {
      assert [a][..0] == [];
    }
    assert TotalSatisfaction([a, b]) == a.satisfaction + b.satisfaction by {
      assert [a, b][..1] == [a];
    }
  }

  /** In the catalog of `Contention`, the first participant of a trial finds
      the seat of X free and takes it at rank 0. */
  lemma FirstTakesSeat(programs: map<string, Program>, x: Program, a: Participant, b: Participant)
    requires programs == map["X" := x] && x.ageStart == 5 && x.ageEnd == 15 && x.capacity == 1
    requires a.age == 10 && a.choices == ["X", "Y", "Z", "W"]
    requires AllSettled([a, b], programs)
    ensures a.program == x && a.satisfaction == 5
  {
    assert [a, b][..0] == [];
    assert Settled(a, programs, []);
    assert FullAfter(programs, []) == {};
    assert Takes(a.age, programs[a.choices[0]], {});
    assert FirstFit(a.age, a.choices, programs, {}, 0) == Some(0);
  }

  /** In the catalog of `Contention`, once the first participant holds the
      seat of X, the second finds X full and, naming no other known program,
      ends unplaced. */
  lemma SecondFindsItFull(programs: map<string, Program>, x: Program, a: Participant, b: Participant)
    requires programs == map["X" := x] && x.capacity == 1
    requires b.choices == ["X", "Y", "Z", "W"] && a.program == x
    requires AllSettled([a, b], programs)
    ensures b.program == null && b.satisfaction == 0
  {
    assert [a, b][..1] == [a];
    assert Settled(b, programs, [a]);
    assert Members([a], x) == [a];
    assert FullAfter(programs, [a]) == {x};
  }

  /** A participant outside the age bounds of every program it names is never
      placed, so no trial has a positive mean and nothing is retained. */
  method NobodyEligible() returns (retained: bool)
    ensures !retained
  {
    var x := new Program("X", 5, 15, 3);
    var programs := map["X" := x];
    var kid := new Participant("Ada", 30, "Oak", "X", "X", "X", "X");
    var selected := Search(programs, {kid}, [[kid], [kid]]);
    retained := selected.Some?;
  }

  /** A program with no seats places nobody, however often the search runs. */
  method NoSeats() returns (retained: bool)
    ensures !retained
  {
    var x := new Program("X", 5, 15, 0);
    var programs := map["X" := x];
    var kid := new Participant("Ada", 10, "Oak", "X", "X", "X", "X");
    var selected := Search(programs, {kid}, [[kid], [kid]]);
    retained := selected.Some?;
  }

  /** When somebody can be placed, the search keeps the shuffled list, which
      holds the order of the last trial rather than that of the first. */
  method LastOrderSelected() returns (first: string)
    ensures first == "Bo"
  {
    var x := new Program("X", 5, 15, 1);
    var programs := map["X" := x];
    var a := new Participant("Ada", 10, "Oak", "X", "X", "X", "X");
    var b := new Participant("Bo", 11, "Elm", "X", "X", "X", "X");
    assert ScanLength(a.choices, programs) == 4;
    var selected := Search(programs, {a, b}, [[a, b], [b, a]]);
    first := selected.value[0].name;
  }
}
