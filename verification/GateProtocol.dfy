/**
 * What the cache gate promises for one key: a semaphore that is always there.
 * A user of the key enters, waits, may be granted a weight, and leaves.
 */
module GateProtocol {
  import opened Sums

  const CAPACITY: int := 0x7fff_ffff_ffff_ffff

  datatype Phase = Waiting | Holding(weight: int) | Leaving

  /** The live users of one key; one that has left is not in the map. */
  type Users = map<int, Phase>

  datatype Step =
    | Enter(p: int)
    | Grant(p: int, weight: int)
    | GiveUp(p: int)
    | Drop(p: int)
    | Exit(p: int)

  function Granted(p: int, phase: Phase): int { if phase.Holding? then phase.weight else 0 }

  /** The weight granted on the key. */
  ghost function Load(users: Users): int { Total(users, Granted) }

  ghost predicate Next(users: Users, step: Step, users': Users) {
    match step
    case Enter(p) => p !in users && users' == users[p := Waiting]
    case Grant(p, weight) =>
      && p in users && users[p].Waiting?
      && 1 <= weight && Load(users) + weight <= CAPACITY
      && users' == users[p := Holding(weight)]
    case GiveUp(p) => p in users && users[p].Waiting? && users' == users[p := Leaving]
    case Drop(p) => p in users && users[p].Holding? && users' == users[p := Leaving]
    case Exit(p) => p in users && users[p].Leaving? && users' == users - {p}
  }

  ghost predicate Safe(users: Users) {
    && (forall p :: p in users && users[p].Holding? ==> users[p].weight >= 1)
    && Load(users) <= CAPACITY
  }

  lemma LoadAfter(users: Users, p: int, phase: Phase)
    ensures Load(users[p := phase]) == Load(users) + Granted(p, phase) - if p in users then Granted(p, users[p]) else 0
  {
    TotalPut(users, Granted, p, phase);
  }

  lemma LoadWithout(users: Users, p: int)
    requires p in users
    ensures Load(users - {p}) == Load(users) - Granted(p, users[p])
  {
    TotalWithout(users, Granted, p);
  }

  lemma StepKeepsSafe(users: Users, step: Step, users': Users)
    requires Safe(users) && Next(users, step, users')
    ensures Safe(users')
  {
    if step.Exit? { LoadWithout(users, step.p); }
    else { LoadAfter(users, step.p, users'[step.p]); }
  }

  /** A holder of the whole capacity is alone on the key. */
  lemma ExclusiveIsAlone(users: Users, p: int, q: int)
    requires Safe(users) && p in users && q in users && p != q && users[p] == Holding(CAPACITY)
    ensures !users[q].Holding?
  {
    TotalAtLeastTwo(users, Granted, p, q);
  }

  /** A read takes one permit, and readers share: with fewer than 2^63 - 1 users and
      no exclusive holder, one more read fits. */
  lemma ReadersShare(users: Users)
    requires forall p :: p in users && users[p].Holding? ==> users[p].weight == 1
    requires |users| < 0x7fff_ffff_ffff_ffff
    ensures Load(users) + 1 <= CAPACITY
  {
    TotalAtMostSize(users, Granted);
  }

  /** An exclusive holder keeps every read out, and any holder an exclusive one. */
  lemma ReadsAndExclusion(users: Users, p: int)
    requires Safe(users) && p in users && users[p].Holding?
    ensures users[p].weight == CAPACITY ==> Load(users) + 1 > CAPACITY
    ensures Load(users) + CAPACITY > CAPACITY
  {
    assert Granted(p, users[p]) >= 1;
    TotalAtLeast(users, Granted, p);
  }

  ghost predicate Run(states: seq<Users>, steps: seq<Step>) {
    && |states| == |steps| + 1
    && states[0] == map[]
    && forall i :: 0 <= i < |steps| ==> Next(states[i], steps[i], states[i + 1])
  }

  lemma {:induction false} RunIsSafe(states: seq<Users>, steps: seq<Step>, n: nat)
    requires Run(states, steps) && n <= |steps|
    ensures Safe(states[n])
  {
    if n > 0 {
      RunIsSafe(states, steps, n - 1);
      StepKeepsSafe(states[n - 1], steps[n - 1], states[n]);
    }
  }

  /** In every interleaving of its users, an exclusive holder of the key never
      coexists with another holder. */
  lemma ExclusionInEveryRun(states: seq<Users>, steps: seq<Step>, n: nat, p: int, q: int)
    requires Run(states, steps) && n <= |steps|
    requires p in states[n] && q in states[n] && p != q
    requires states[n][p] == Holding(CAPACITY)
    ensures !states[n][q].Holding?
  {
    RunIsSafe(states, steps, n);
    ExclusiveIsAlone(states[n], p, q);
  }
}
