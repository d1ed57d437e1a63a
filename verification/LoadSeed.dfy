/**
 How the load seed (db/seeds/demo.ts) spreads registrations over programs and
 people.  The file's constants are parameters; `LOAD` holds their values.
 */
module LoadSeed {
  import opened Wrappers

  datatype Plan = Plan(orgs: nat, programs: nat, total: nat, families: nat, base: nat) {
    /** The family accounts divide evenly over the first organization's programs. */
    predicate Valid() {
      orgs >= 2 && programs >= 1 && base >= 1 && families <= total && families % programs == 0
    }
  }

  const LOAD := Plan(100, 4, 400000, 20000, 1000)

  // ---- Operations

  function SlotCount(p: Plan): nat
    requires p.Valid()
  {
    (p.orgs - 1) * p.programs
  }

  /** `None` is the RangeError. */
  function RegistrationCount(p: Plan, org: int, program: int): Option<nat>
    requires p.Valid()
  {
    if !(0 <= org < p.orgs && 0 <= program < p.programs) then None
    else if org == 0 then Some(p.families / p.programs)
    else
      PositiveProduct(p.orgs - 1, p.programs);
      PositiveProduct(org - 1, p.programs);
      Some(SlotRows(p, (org - 1) * p.programs + program))
  }

  /** The rows of one program outside the first organization. */
  function SlotRows(p: Plan, slot: nat): nat
    requires p.Valid()
  {
    PositiveProduct(p.orgs - 1, p.programs);
    var other := p.total - p.families;
    other / SlotCount(p) + (if slot < other % SlotCount(p) then 1 else 0)
  }

  function ExtraOffset(p: Plan, count: nat, program: nat): nat {
    if count > p.base then p.base * p.programs + program * (count - p.base) else 0
  }

  /** The person of the n-th registration of a program. */
  function PersonIndex(p: Plan, count: nat, program: nat, n: nat, people: nat): nat
    requires people > 0 && n < count
  {
    (if n < p.base then n + program * p.base else n - p.base + ExtraOffset(p, count, program)) % people
  }

  function LoadPeople(org: nat): nat {
    if org == 0 then 20000 else if org <= 13 then 1314 else 1313
  }

  // ---- Arithmetic

  lemma PositiveProduct(a: int, b: int)
    requires a >= 0 && b >= 0
    ensures a * b >= 0
    ensures a >= 1 ==> a * b >= b
  {
    if a >= 1 {
      assert a * b == (a - 1) * b + b;
      assert (a - 1) * b >= 0;
    }
  }

  lemma DivModOf(q: int, k: int, r: int)
    requires 0 <= r < k
    ensures (q * k + r) / k == q && (q * k + r) % k == r
  {
    var x := q * k + r;
    var d := x / k - q;
    assert x == (x / k) * k + x % k;
    assert d * k == (x / k) * k - q * k;
    if d >= 1 {
      PositiveProduct(d - 1, k);
    }
    if d <= -1 {
      PositiveProduct(-d - 1, k);
    }
  }

  lemma RemainderFixed(x: int, k: int)
    requires 0 <= x < k
    ensures x % k == x
  {
  }

  // ---- The rows add up

  /** The rows of the first `slots` programs outside the first organization. */
  function SlotSum(p: Plan, slots: nat): nat
    requires p.Valid()
  {
    if slots == 0 then 0 else SlotSum(p, slots - 1) + SlotRows(p, slots - 1)
  }

  function ProgramSum(p: Plan, org: nat, programs: nat): nat
    requires p.Valid() && org < p.orgs && programs <= p.programs
  {
    if programs == 0 then 0
    else ProgramSum(p, org, programs - 1) + RegistrationCount(p, org, programs - 1).value
  }

  function OrgSum(p: Plan, orgs: nat): nat
    requires p.Valid() && orgs <= p.orgs
  {
    if orgs == 0 then 0 else OrgSum(p, orgs - 1) + ProgramSum(p, orgs - 1, p.programs)
  }

  lemma {:induction false} SlotSumIs(p: Plan, slots: nat)
    requires p.Valid()
    ensures SlotCount(p) > 0
    ensures var other := p.total - p.families;
            SlotSum(p, slots) == slots * (other / SlotCount(p)) + (if slots < other % SlotCount(p) then slots else other % SlotCount(p))
  {
    PositiveProduct(p.orgs - 1, p.programs);
    assert SlotCount(p) > 0;
    hide SlotCount;
    if slots > 0 {
      SlotSumIs(p, slots - 1);
      NextMultiple(slots, (p.total - p.families) / SlotCount(p));
    }
  }

  lemma NextMultiple(n: int, q: int)
    ensures n * q == (n - 1) * q + q
  {
  }

  lemma {:induction false} FirstOrgSum(p: Plan, programs: nat)
    requires p.Valid() && programs <= p.programs
    ensures ProgramSum(p, 0, programs) == programs * (p.families / p.programs)
  {
    if programs > 0 {
      FirstOrgSum(p, programs - 1);
    }
  }

  lemma {:induction false} OtherOrgSum(p: Plan, org: nat, programs: nat)
    requires p.Valid() && 1 <= org < p.orgs && programs <= p.programs
    ensures (org - 1) * p.programs >= 0
    ensures SlotSum(p, (org - 1) * p.programs + programs) == SlotSum(p, (org - 1) * p.programs) + ProgramSum(p, org, programs)
  {
    PositiveProduct(org - 1, p.programs);
    if programs > 0 {
      OtherOrgSum(p, org, programs - 1);
    }
  }

  lemma {:induction false} OrgSumIs(p: Plan, orgs: nat)
    requires p.Valid() && 1 <= orgs <= p.orgs
    ensures (orgs - 1) * p.programs >= 0
    ensures OrgSum(p, orgs) == p.families + SlotSum(p, (orgs - 1) * p.programs)
  {
    PositiveProduct(orgs - 1, p.programs);
    if orgs == 1 {
      FirstOrgSum(p, p.programs);
      assert OrgSum(p, 0) == 0;
      assert p.families == p.programs * (p.families / p.programs) + p.families % p.programs;
    } else {
      OrgSumIs(p, orgs - 1);
      OtherOrgSum(p, orgs - 1, p.programs);
      assert (orgs - 1) * p.programs == (orgs - 2) * p.programs + p.programs;
    }
  }

  /** The counts of all programs of all organizations add up to the total. */
  lemma CountsAddUp(p: Plan)
    requires p.Valid()
    ensures OrgSum(p, p.orgs) == p.total
  {
    OrgSumIs(p, p.orgs);
    SlotSumIs(p, SlotCount(p));
    hide SlotCount, OrgSum, SlotSum;
    Division(p.total - p.families, SlotCount(p));
  }

  lemma Division(a: nat, k: nat)
    requires k > 0
    ensures a == k * (a / k) + a % k && a % k < k
  {
  }

  /** Outside the first organization no program has two registrations more than another. */
  lemma CountsDifferByOne(p: Plan, org: nat, program: nat, org': nat, program': nat)
    requires p.Valid() && 1 <= org < p.orgs && 1 <= org' < p.orgs && program < p.programs && program' < p.programs
    ensures var a, b := RegistrationCount(p, org, program), RegistrationCount(p, org', program');
            a.Some? && b.Some? && a.value <= b.value + 1
  {
  }

  /** A count is asked for exactly within range; the families are spread evenly; earlier programs never get fewer. */
  lemma CountsExact(p: Plan, org: int, program: int, org': int, program': int)
    requires p.Valid()
    ensures RegistrationCount(p, org, program).Some? <==> 0 <= org < p.orgs && 0 <= program < p.programs
    ensures org == 0 && 0 <= program < p.programs ==> RegistrationCount(p, org, program) == Some(p.families / p.programs)
    ensures 1 <= org <= org' < p.orgs && 0 <= program < p.programs && 0 <= program' < p.programs
            && (org < org' || program <= program')
            ==> RegistrationCount(p, org, program).value >= RegistrationCount(p, org', program').value
  {
    if 1 <= org < org' {
      PositiveProduct(org' - 1 - org, p.programs);
      assert (org' - 1 - org) * p.programs == (org' - 1) * p.programs - (org - 1) * p.programs - p.programs;
    }
  }

  // ---- Each person of the first organization once

  /** The program and place of a person in the first organization. */
  function SeatOf(p: Plan, count: nat, person: nat): (nat, nat)
    requires p.base >= 1 && p.programs >= 1 && p.base <= count && person < p.programs * count
  {
    if person < p.base * p.programs then (person / p.base, person % p.base)
    else
      PositiveProduct(p.programs, count - p.base);
      assert p.programs * count == p.base * p.programs + p.programs * (count - p.base);
      assert count > p.base;
      var rest := person - p.base * p.programs;
      (rest / (count - p.base), p.base + rest % (count - p.base))
  }

  lemma SeatInRange(p: Plan, count: nat, person: nat)
    requires p.base >= 1 && p.programs >= 1 && p.base <= count && person < p.programs * count
    ensures SeatOf(p, count, person).0 < p.programs && SeatOf(p, count, person).1 < count
  {
    if person < p.base * p.programs {
      QuotientBelow(person, p.base, p.programs);
    } else {
      PositiveProduct(p.programs, count - p.base);
      assert p.programs * count == p.base * p.programs + p.programs * (count - p.base);
      QuotientBelow(person - p.base * p.programs, count - p.base, p.programs);
    }
  }

  lemma QuotientBelow(x: nat, k: nat, m: nat)
    requires k > 0 && x < k * m
    ensures x / k < m
  {
    assert x == (x / k) * k + x % k;
    if x / k >= m {
      PositiveProduct(x / k - m, k);
    }
  }

  /**
   When every program has `count` registrations, at least the base number, and
   there are exactly as many people, each person has exactly one registration:
   the mapping and `SeatOf` undo each other.
   */
  lemma EachPersonOnce(p: Plan, count: nat, person: nat)
    requires p.base >= 1 && p.programs >= 1 && p.base <= count && person < p.programs * count
    ensures var (program, n) := SeatOf(p, count, person);
            program < p.programs && n < count && PersonIndex(p, count, program, n, p.programs * count) == person
  {
    hide SeatOf, PersonIndex;
    SeatInRange(p, count, person);
    if person < p.base * p.programs {
      BasePerson(p, count, person);
    } else {
      ExtraPerson(p, count, person);
    }
  }

  lemma BasePerson(p: Plan, count: nat, person: nat)
    requires 1 <= p.base <= count && person < p.programs * count && person < p.base * p.programs
    ensures var (program, n) := SeatOf(p, count, person);
            n < count && PersonIndex(p, count, program, n, p.programs * count) == person
  {
    Division(person, p.base);
    assert p.base * (person / p.base) == person / p.base * p.base;
    RemainderFixed(person, p.programs * count);
  }

  lemma ExtraPerson(p: Plan, count: nat, person: nat)
    requires p.programs >= 1 && 1 <= p.base <= count && p.base * p.programs <= person < p.programs * count
    ensures var (program, n) := SeatOf(p, count, person);
            n < count && PersonIndex(p, count, program, n, p.programs * count) == person
  {
    SplitTotal(p, count);
    var k, rest := count - p.base, person - p.base * p.programs;
    Division(rest, k);
    assert k * (rest / k) == rest / k * k;
    RemainderFixed(person, p.programs * count);
  }

  lemma EachSeatOnce(p: Plan, count: nat, program: nat, n: nat)
    requires p.base >= 1 && p.programs >= 1 && p.base <= count && program < p.programs && n < count
    ensures p.programs * count > 0
    ensures var person := PersonIndex(p, count, program, n, p.programs * count);
            person < p.programs * count && SeatOf(p, count, person) == (program, n)
  {
    SplitTotal(p, count);
    if n < p.base {
      BaseSeat(p, count, program, n);
    } else {
      ExtraSeat(p, count, program, n);
    }
  }

  lemma SplitTotal(p: Plan, count: nat)
    requires p.programs >= 1 && 1 <= p.base <= count
    ensures p.programs * count == p.base * p.programs + p.programs * (count - p.base)
    ensures p.programs * (count - p.base) >= 0 && p.base * p.programs > 0
  {
    PositiveProduct(p.programs, count - p.base);
    PositiveProduct(p.base, p.programs);
  }

  lemma BaseSeat(p: Plan, count: nat, program: nat, n: nat)
    requires 1 <= p.base <= count && program < p.programs && n < p.base
    requires p.programs * count >= p.base * p.programs > 0
    ensures PersonIndex(p, count, program, n, p.programs * count) == program * p.base + n < p.base * p.programs
    ensures SeatOf(p, count, program * p.base + n) == (program, n)
  {
    RowMajor(program, p.base, n, p.programs);
    RemainderFixed(program * p.base + n, p.programs * count);
  }

  lemma ExtraSeat(p: Plan, count: nat, program: nat, n: nat)
    requires 1 <= p.base < count && program < p.programs && p.base <= n < count
    requires p.programs * count > 0
    ensures PersonIndex(p, count, program, n, p.programs * count) < p.programs * count
    ensures SeatOf(p, count, PersonIndex(p, count, program, n, p.programs * count)) == (program, n)
  {
    SplitTotal(p, count);
    var k, r := count - p.base, n - p.base;
    RowMajor(program, k, r, p.programs);
    var person := p.base * p.programs + (program * k + r);
    RemainderFixed(person, p.programs * count);
    assert PersonIndex(p, count, program, n, p.programs * count) == person;
    assert person - p.base * p.programs == program * k + r;
  }

  /** Position r of row q, of m rows of k. */
  lemma RowMajor(q: nat, k: nat, r: nat, m: nat)
    requires q < m && r < k
    ensures 0 <= q * k + r < m * k && (q * k + r) / k == q && (q * k + r) % k == r
  {
    DivModOf(q, k, r);
    PositiveProduct(q, k);
    PositiveProduct(m - 1 - q, k);
    assert (m - 1 - q) * k == m * k - k - q * k;
  }

  /** No person is registered twice in the program. */
  ghost predicate Injective(p: Plan, count: nat, program: nat, people: nat)
    requires people > 0
  {
    forall m, n :: 0 <= m < n < count ==> PersonIndex(p, count, program, m, people) != PersonIndex(p, count, program, n, people)
  }

  /** How far the first person past the base ones lies from the program's first person. */
  function ExtraDistance(p: Plan, count: nat, program: nat): int {
    ExtraOffset(p, count, program) - program * p.base
  }

  /**
   A program registers different people exactly when there are enough of them, and,
   when it has more than its base number, those past it fall, counted round the
   organization's people, after the base ones and before those come round again.
   */
  lemma InjectiveExactly(p: Plan, count: nat, program: nat, people: nat)
    requires people > 0
    ensures Injective(p, count, program, people)
       <==> if count <= p.base || p.base == 0 then count <= people
            else p.base <= ExtraDistance(p, count, program) % people <= people - (count - p.base)
  {
    hide Injective, ExtraDistance, PersonIndex;
    if count <= p.base || p.base == 0 {
      OneBlockExactly(p, count, program, people);
    } else if p.base <= ExtraDistance(p, count, program) % people <= people - (count - p.base) {
      TwoBlocksApart(p, count, program, people);
    } else {
      TwoBlocksMeet(p, count, program, people);
    }
  }

  /** All of a program's people follow each other: base ones only, or none. */
  lemma OneBlockExactly(p: Plan, count: nat, program: nat, people: nat)
    requires people > 0 && (count <= p.base || p.base == 0)
    ensures Injective(p, count, program, people) <==> count <= people
  {
    PositiveProduct(program, p.base);
    var first := if p.base == 0 then ExtraOffset(p, count, program) else program * p.base;
    assert forall n: nat {:trigger PersonIndex(p, count, program, n, people)} :: n < count ==>
      PersonIndex(p, count, program, n, people) == (first + n) % people;
    hide PersonIndex;
    if count <= people {
      forall m, n | 0 <= m < n < count
        ensures PersonIndex(p, count, program, m, people) != PersonIndex(p, count, program, n, people)
      {
        CloseRemainders(first + m, first + n, people);
      }
    } else {
      RoundOnce(first, people, 1);
      assert PersonIndex(p, count, program, 0, people) == PersonIndex(p, count, program, people, people);
    }
  }

  lemma RoundOnce(x: int, k: int, times: int)
    requires k > 0
    ensures (x + times * k) % k == x % k
  {
    var q := x / k + times;
    assert x + times * k == q * k + x % k;
    DivModOf(q, k, x % k);
  }

  /** Places in the program, counted round the people from the program's first person. */
  function Place(p: Plan, count: nat, program: nat, n: nat, people: nat): (place: nat)
    requires people > 0 && n < count && p.base < count
    ensures place < people
  {
    (if n < p.base then n else n - p.base + ExtraDistance(p, count, program)) % people
  }

  /** Two registrations name one person exactly when they have one place. */
  lemma PlacesTell(p: Plan, count: nat, program: nat, m: nat, n: nat, people: nat)
    requires people > 0 && m < count && n < count && p.base < count
    ensures PersonIndex(p, count, program, m, people) == PersonIndex(p, count, program, n, people)
       <==> Place(p, count, program, m, people) == Place(p, count, program, n, people)
  {
    hide ExtraDistance;
    var x := if m < p.base then m else m - p.base + ExtraDistance(p, count, program);
    var y := if n < p.base then n else n - p.base + ExtraDistance(p, count, program);
    var first := program * p.base;
    PersonFrom(p, count, program, m, people);
    PersonFrom(p, count, program, n, people);
    SameRemainder(x, y, people);
    SameRemainder(first + x, first + y, people);
  }

  lemma PersonFrom(p: Plan, count: nat, program: nat, n: nat, people: nat)
    requires people > 0 && n < count && p.base < count
    ensures PersonIndex(p, count, program, n, people)
         == (program * p.base + (if n < p.base then n else n - p.base + ExtraDistance(p, count, program))) % people
  {
  }

  lemma SameRemainder(x: int, y: int, k: int)
    requires k > 0
    ensures x % k == y % k <==> (x - y) % k == 0
  {
    Quotient(x, k);
    Quotient(y, k);
    Quotient(x - y, k);
    var a, b := x / k, y / k;
    if x % k == y % k {
      assert x - y == (a - b) * k + 0;
      DivModOf(a - b, k, 0);
    } else if (x - y) % k == 0 {
      var c := (x - y) / k;
      assert x == (b + c) * k + y % k;
      DivModOf(b + c, k, y % k);
    }
  }

  lemma Quotient(x: int, k: int)
    requires k > 0
    ensures x == x / k * k + x % k && 0 <= x % k < k
  {
  }

  /** Adding less than is left before the next round. */
  lemma RemainderPlus(x: int, y: nat, k: int)
    requires k > 0 && x % k + y < 2 * k
    ensures (x + y) % k == if x % k + y < k then x % k + y else x % k + y - k
  {
    Quotient(x, k);
    var q := x / k;
    if x % k + y < k {
      assert x + y == q * k + (x % k + y);
      DivModOf(q, k, x % k + y);
    } else {
      assert x + y == (q + 1) * k + (x % k + y - k);
      DivModOf(q + 1, k, x % k + y - k);
    }
  }

  lemma TwoBlocksApart(p: Plan, count: nat, program: nat, people: nat)
    requires 1 <= p.base < count && people > 0
    requires p.base <= ExtraDistance(p, count, program) % people <= people - (count - p.base)
    ensures Injective(p, count, program, people)
  {
    hide ExtraDistance, PersonIndex, Place;
    forall m, n | 0 <= m < n < count
      ensures PersonIndex(p, count, program, m, people) != PersonIndex(p, count, program, n, people)
    {
      PlacesTell(p, count, program, m, n, people);
      PlaceIs(p, count, program, m, people);
      PlaceIs(p, count, program, n, people);
    }
  }

  lemma PlaceIs(p: Plan, count: nat, program: nat, n: nat, people: nat)
    requires p.base < count && people > 0 && n < count
    ensures n < p.base && n < people ==> Place(p, count, program, n, people) == n
    ensures var r := ExtraDistance(p, count, program) % people;
            n >= p.base && r + (n - p.base) < 2 * people
            ==> Place(p, count, program, n, people) == if r + (n - p.base) < people then r + (n - p.base) else r + (n - p.base) - people
  {
    hide ExtraDistance;
    if n < p.base {
      if n < people {
        RemainderFixed(n, people);
      }
    } else if ExtraDistance(p, count, program) % people + (n - p.base) < 2 * people {
      RemainderPlus(ExtraDistance(p, count, program), n - p.base, people);
    }
  }

  /** A person registered twice. */
  lemma Twice(p: Plan, count: nat, program: nat, m: nat, n: nat, people: nat)
    requires 1 <= p.base < count && people > 0 && m < n < count
    requires Place(p, count, program, m, people) == Place(p, count, program, n, people)
    ensures !Injective(p, count, program, people)
  {
    hide PersonIndex, Place;
    PlacesTell(p, count, program, m, n, people);
  }

  lemma TwoBlocksMeet(p: Plan, count: nat, program: nat, people: nat)
    requires 1 <= p.base < count && people > 0
    requires !(p.base <= ExtraDistance(p, count, program) % people <= people - (count - p.base))
    ensures !Injective(p, count, program, people)
  {
    hide ExtraDistance, Injective, Place;
    var r := ExtraDistance(p, count, program) % people;
    PlaceIs(p, count, program, 0, people);
    if r < p.base {
      // The first person past the base ones is the r-th of the program.
      PlaceIs(p, count, program, p.base, people);
      PlaceIs(p, count, program, r, people);
      Twice(p, count, program, r, p.base, people);
    } else {
      // The people past the base ones come round to the program's first person.
      PlaceIs(p, count, program, p.base + (people - r), people);
      Twice(p, count, program, 0, p.base + (people - r), people);
    }
  }

  lemma CloseRemainders(a: nat, b: nat, k: nat)
    requires a < b < a + k
    ensures a % k != b % k
  {
    var d := b / k - a / k;
    assert a == (a / k) * k + a % k && b == (b / k) * k + b % k;
    if a % k == b % k {
      assert d * k == b - a;
      if d >= 1 {
        PositiveProduct(d - 1, k);
      } else {
        PositiveProduct(-d, k);
      }
    }
  }

  // ---- The file's own numbers

  lemma LoadCounts(org: nat, program: nat)
    requires org < 100 && program < 4
    ensures LOAD.Valid() && RegistrationCount(LOAD, org, program).Some?
    ensures var count := RegistrationCount(LOAD, org, program).value;
            if org == 0 then count == 5000 else 959 <= count <= 960
  {
    assert SlotCount(LOAD) == 396;
    assert 380000 / 396 == 959;
  }

  lemma LoadTotal()
    ensures LOAD.Valid() && OrgSum(LOAD, 100) == 400000
  {
    hide OrgSum;
    CountsAddUp(LOAD);
  }

  function PeopleSum(orgs: nat): nat {
    if orgs == 0 then 0 else PeopleSum(orgs - 1) + LoadPeople(orgs - 1)
  }

  lemma {:induction false} PeopleSumIs(orgs: nat)
    ensures PeopleSum(orgs) == if orgs == 0 then 0 else if orgs <= 14 then 20000 + 1314 * (orgs - 1) else 20000 + 1314 * 13 + 1313 * (orgs - 14)
  {
    if orgs > 0 {
      PeopleSumIs(orgs - 1);
    }
  }

  /** The organizations of the load hold 150000 people, the first of them as many as it has family accounts. */
  lemma PeopleTotal()
    ensures PeopleSum(LOAD.orgs) == 150000 && LoadPeople(0) == LOAD.families
  {
    PeopleSumIs(100);
  }

  /** The people of the first organization's programs: a thousand each in turn, then four thousand more each. */
  lemma FirstOrganization(program: nat, n: nat)
    requires program < 4 && n < 5000
    ensures PersonIndex(LOAD, 5000, program, n, LoadPeople(0))
         == if n < 1000 then 1000 * program + n else 4000 + 4000 * program + (n - 1000)
  {
  }

  /** With the file's constants no program registers a person twice. */
  lemma LoadIsInjective(org: nat, program: nat, count: nat, m: nat, n: nat)
    requires org < 100 && program < 4 && m < n < count
    requires LOAD.Valid() && RegistrationCount(LOAD, org, program) == Some(count)
    ensures PersonIndex(LOAD, count, program, m, LoadPeople(org)) != PersonIndex(LOAD, count, program, n, LoadPeople(org))
  {
    LoadCounts(org, program);
    hide RegistrationCount, PersonIndex;
    if org == 0 {
      EachSeatOnce(LOAD, 5000, program, m);
      EachSeatOnce(LOAD, 5000, program, n);
    } else {
      InjectiveExactly(LOAD, count, program, LoadPeople(org));
      assert Injective(LOAD, count, program, LoadPeople(org));
    }
  }
}
