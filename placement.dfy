/** Programs, participants and the greedy claim of one participant.

    A `Program` has fixed age bounds and a capacity, and a roster that the
    claims of one trial append to. A `Participant` has an age and exactly four
    ranked choices (program names), and per-trial state: the program it holds,
    if any, and a satisfaction score. The catalog of programs, a dictionary
    from program name to program in the source, is a `map` parameter here.
 */
module Placement {

  datatype Option<T> = None | Some(value: T)

  /** Every participant row carries the columns Choice1 .. Choice4. */
  const NumChoices: nat := 4

  type Choices = s: seq<string> | |s| == NumChoices witness ["", "", "", ""]

  class Program {
    const name: string
    const ageStart: int
    const ageEnd: int
    const capacity: nat
    var participants: seq<Participant>

    constructor (name: string, ageStart: int, ageEnd: int, capacity: nat)
      ensures this.name == name && this.ageStart == ageStart && this.ageEnd == ageEnd
      ensures this.capacity == capacity
      ensures participants == []
    {
      this.name := name;
      this.ageStart := ageStart;
      this.ageEnd := ageEnd;
      this.capacity := capacity;
      participants := [];
    }
  }

  /** The age bounds of a program are inclusive. */
  predicate Eligible(age: int, p: Program) {
    p.ageStart <= age <= p.ageEnd
  }

  /** A claim on `p` by a participant of this age succeeds when `p` admits the
      age and is not among the `full` programs. */
  predicate Takes(age: int, p: Program, full: set<Program>) {
    Eligible(age, p) && p !in full
  }

  /** The programs of the catalog whose roster has no room left. */
  function FullPrograms(programs: map<string, Program>): (r: set<Program>)
    reads programs.Values
  {
    set p | p in programs.Values && |p.participants| >= p.capacity
  }

  /** The number of leading choices that name a known program: the scan of the
      choices never looks past the first unknown name. */
  function ScanLength(choices: seq<string>, programs: map<string, Program>): (n: nat)
    ensures n <= |choices|
    ensures forall j :: 0 <= j < n ==> choices[j] in programs
    ensures n < |choices| ==> choices[n] !in programs
  {
    if choices == [] || choices[0] !in programs then 0
    else 1 + ScanLength(choices[1..], programs)
  }

  /** The index of the choice that a claim scanning from index `from` takes
      when the programs in `full` have no room, or None when the scan ends (at
      an unknown name or after the last choice) without a program it takes. */
  function FirstFit(age: int, choices: seq<string>, programs: map<string, Program>, full: set<Program>, from: nat): (r: Option<nat>)
    requires from <= ScanLength(choices, programs)
    ensures r.Some? ==>
      from <= r.value < ScanLength(choices, programs) &&
      Takes(age, programs[choices[r.value]], full) &&
      forall j :: from <= j < r.value ==> !Takes(age, programs[choices[j]], full)
    ensures r.None? ==>
      forall j :: from <= j < ScanLength(choices, programs) ==> !Takes(age, programs[choices[j]], full)
    decreases |choices| - from
  {
    if from == |choices| || choices[from] !in programs then None
    else if Takes(age, programs[choices[from]], full) then Some(from)
    else FirstFit(age, choices, programs, full, from + 1)
  }

  /** A choice that is known and would be taken is never reached when an
      earlier choice names no known program: the scan ends there. */
  lemma {:induction false} UnknownNameEndsScan(age: int, choices: seq<string>, programs: map<string, Program>, full: set<Program>, k: nat)
    requires k < |choices| && choices[k] !in programs
    requires forall j :: 0 <= j < k ==> choices[j] in programs && !Takes(age, programs[choices[j]], full)
    ensures FirstFit(age, choices, programs, full, 0) == None
  {
  }

  class Participant {
    const name: string
    const age: int
    const cabin: string
    const choices: Choices
    var satisfaction: int
    var program: Program?

    constructor (name: string, age: int, cabin: string, choice1: string, choice2: string, choice3: string, choice4: string)
      ensures this.name == name && this.age == age && this.cabin == cabin
      ensures choices == [choice1, choice2, choice3, choice4]
      ensures satisfaction == NumChoices + 1 && program == null
    {
      this.name := name;
      this.age := age;
      this.cabin := cabin;
      choices := [choice1, choice2, choice3, choice4];
      satisfaction := NumChoices + 1;
      program := null;
    }

    /** Walks the choices in rank order and joins the first known program whose
        age bounds admit this participant and whose roster has room; an unknown
        name ends the walk. Joining at rank `i` costs `i` points of satisfaction;
        a participant that holds no program after the walk loses
        `|choices| + 1` points. Returns the program joined, or null. */
    method ClaimNextBest(programs: map<string, Program>) returns (claimed: Program?)
      modifies this, programs.Values
      ensures old(FirstFit(age, choices, programs, FullPrograms(programs), 0)).None? ==>
        claimed == null &&
        program == old(program) &&
        satisfaction == (if old(program) == null then old(satisfaction) - (|choices| + 1) else old(satisfaction)) &&
        forall q :: q in programs.Values ==> q.participants == old(q.participants)
      ensures old(FirstFit(age, choices, programs, FullPrograms(programs), 0)).Some? ==>
        var i := old(FirstFit(age, choices, programs, FullPrograms(programs), 0)).value;
        i < |choices| && choices[i] in programs &&
        claimed == programs[choices[i]] && program == claimed &&
        satisfaction == old(satisfaction) - i &&
        claimed.participants == old(claimed.participants) + [this] &&
        forall q :: q in programs.Values && q != claimed ==> q.participants == old(q.participants)
      ensures claimed != null ==> Eligible(age, claimed) && |claimed.participants| <= claimed.capacity
      ensures forall q :: q in programs.Values ==> old(q.participants) <= q.participants
    {
      ghost var full := FullPrograms(programs);
      for i := 0 to |choices|
        invariant i <= ScanLength(choices, programs)
        invariant satisfaction == old(satisfaction) && program == old(program)
        invariant forall q :: q in programs.Values ==> q.participants == old(q.participants)
        invariant FirstFit(age, choices, programs, full, i) == FirstFit(age, choices, programs, full, 0)
      {
        if choices[i] !in programs {
          break;
        }
        var prog := programs[choices[i]];
        if age < prog.ageStart {
          continue;
        }
        if age > prog.ageEnd {
          continue;
        }
        if |prog.participants| < prog.capacity {
          prog.participants := prog.participants + [this];
          program := prog;
          satisfaction := satisfaction - i;
          return prog;
        }
      }
      if program == null {
        satisfaction := satisfaction - (|choices| + 1);
      }
      claimed := null;
    }

    /** Restores the state a participant starts each trial in. The new state
        does not depend on the old one, so a second call changes nothing. */
    method Reset()
      modifies this
      ensures satisfaction == |choices| + 1 && program == null
    {
      satisfaction := |choices| + 1;
      program := null;
    }
  }
}
