/** Migrating a configuration from single-agent roles to role assignments. */
module Config {
  import opened Wrappers
  import opened Strings
  import Sorting

  const MAX_CONTEXT_FILES_LIMIT: nat := 200
  const MAX_CONTEXT_CHARS_LIMIT: nat := 500_000

  /** A role table: its legacy agent, and whether it defines anything else. */
  datatype RoleEntry = RoleEntry(agent: Option<string>, defines: bool) {
    predicate IsEmpty() {
      agent == None && !defines
    }
  }

  datatype RoleAssignment = RoleAssignment(role: string, agent: string, preferred: bool)

  datatype Pair = Pair(role: string, agent: string)

  type Roles = map<string, RoleEntry>

  // ---- What normalizing promises ---------------------------------------------------------

  function PairOf(a: RoleAssignment): Pair {
    Pair(a.role, a.agent)
  }

  function Pairs(s: seq<RoleAssignment>): set<Pair> {
    set a | a in s :: PairOf(a)
  }

  /** The pairs the legacy entries stand for; an empty agent name stands for none. */
  function LegacyPairs(roles: Roles): set<Pair> {
    set r | r in roles && roles[r].agent.Some? && roles[r].agent.value != "" :: Pair(r, roles[r].agent.value)
  }

  predicate DistinctPairs(s: seq<RoleAssignment>) {
    forall i, j :: 0 <= i < j < |s| ==> PairOf(s[i]) != PairOf(s[j])
  }

  predicate AtMostOnePreferred(s: seq<RoleAssignment>) {
    forall i, j :: 0 <= i < j < |s| && s[i].role == s[j].role ==> !s[i].preferred || !s[j].preferred
  }

  predicate HasPreferred(s: seq<RoleAssignment>, role: string) {
    exists a :: a in s && a.role == role && a.preferred
  }

  predicate ByPair(a: RoleAssignment, b: RoleAssignment) {
    Less(a.role, b.role) || (a.role == b.role && Leq(a.agent, b.agent))
  }

  /** `x` stands in `s`, and no entry before it is for the same pair. */
  ghost predicate IsFirst(s: seq<RoleAssignment>, x: RoleAssignment) {
    exists i :: 0 <= i < |s| && s[i] == x && PairOf(x) !in Pairs(s[..i])
  }

  /** Every kept entry is the first explicit one for its pair, or a migrated one that is
      preferred only where no explicit entry of its role was. */
  ghost predicate KeepsChoices(before: seq<RoleAssignment>, after: seq<RoleAssignment>) {
    forall x :: x in after ==>
      if PairOf(x) in Pairs(before) then IsFirst(before, x) else x.preferred == !HasPreferred(before, x.role)
  }

  function CleanRoles(roles: Roles): Roles {
    map r | r in roles && roles[r].defines :: roles[r].(agent := None)
  }

  /** A configuration that normalizing leaves alone. */
  ghost predicate Normalized(roles: Roles, s: seq<RoleAssignment>) {
    && (forall r :: r in roles ==> roles[r].agent == None && roles[r].defines)
    && DistinctPairs(s) && Sorting.Sorted(ByPair, s)
  }

  function LegacyRoles(roles: Roles): set<string> {
    set r | r in roles && roles[r].agent.Some?
  }

  function Cleared(roles: Roles): Roles {
    map r | r in roles :: roles[r].(agent := None)
  }

  function UndefinedRoles(roles: Roles): set<string> {
    set r | r in roles && !roles[r].defines
  }

  /** What the flag returned by normalizing reports; neither sorting nor clamping counts. */
  ghost predicate NeedsRewrite(roles: Roles, s: seq<RoleAssignment>) {
    LegacyRoles(roles) != {} || UndefinedRoles(roles) != {} || !DistinctPairs(s)
  }

  // ---- Duplicates ----------------------------------------------------------------------------

  /** The first entry of each pair, in order. */
  function FirstOfEach(s: seq<RoleAssignment>): seq<RoleAssignment> {
    if s == [] then []
    else
      var last := |s| - 1;
      FirstOfEach(s[..last]) + if PairOf(s[last]) in Pairs(s[..last]) then [] else [s[last]]
  }

  lemma PairsAppend(s: seq<RoleAssignment>, x: RoleAssignment)
    ensures Pairs(s + [x]) == Pairs(s) + {PairOf(x)}
  {}

  lemma DistinctAppend(s: seq<RoleAssignment>, x: RoleAssignment)
    ensures DistinctPairs(s + [x]) <==> DistinctPairs(s) && PairOf(x) !in Pairs(s)
  {
    var t := s + [x];
    if PairOf(x) in Pairs(s) {
      var i :| 0 <= i < |s| && PairOf(s[i]) == PairOf(x);
      assert PairOf(t[i]) == PairOf(t[|s|]);
    }
    assert forall i :: 0 <= i < |s| ==> t[i] == s[i];
    assert forall i :: 0 <= i < |s| ==> s[i] in s;
  }

  lemma {:induction false} FirstOfEachPairs(s: seq<RoleAssignment>)
    ensures Pairs(FirstOfEach(s)) == Pairs(s) && DistinctPairs(FirstOfEach(s))
    ensures |FirstOfEach(s)| <= |s|
    ensures |FirstOfEach(s)| == |s| <==> DistinctPairs(s)
    ensures DistinctPairs(s) ==> FirstOfEach(s) == s
  {
    hide Pairs, DistinctPairs;
    if s != [] {
      var rest, x := s[..|s| - 1], s[|s| - 1];
      assert s == rest + [x];
      FirstOfEachPairs(rest);
      PairsAppend(rest, x);
      DistinctAppend(rest, x);
      PairsAppend(FirstOfEach(rest), x);
      DistinctAppend(FirstOfEach(rest), x);
      assert PairOf(x) in Pairs(rest) ==> Pairs(rest) + {PairOf(x)} == Pairs(rest);
      assert FirstOfEach(rest) + [] == FirstOfEach(rest);
    } else {
      NothingIsDistinct();
    }
  }

  lemma NothingIsDistinct()
    ensures DistinctPairs([])
  {}

  lemma {:induction false} FirstOfEachIsFirst(s: seq<RoleAssignment>, x: RoleAssignment)
    requires x in FirstOfEach(s)
    ensures IsFirst(s, x)
  {
    var last := |s| - 1;
    var rest := s[..last];
    if x in FirstOfEach(rest) {
      FirstOfEachIsFirst(rest, x);
      var i :| 0 <= i < |rest| && rest[i] == x && PairOf(x) !in Pairs(rest[..i]);
      assert s[i] == x && s[..i] == rest[..i];
    } else {
      assert s[last] == x;
    }
  }

  // ---- Order of the pairs -----------------------------------------------------------------

  lemma ByPairIsOrder()
    ensures Sorting.IsOrder(ByPair)
    ensures forall a, b :: ByPair(a, b) && ByPair(b, a) ==> PairOf(a) == PairOf(b)
  {
    LeqIsOrder();
    forall a, b
      ensures ByPair(a, b) || ByPair(b, a)
      ensures ByPair(a, b) && ByPair(b, a) ==> PairOf(a) == PairOf(b)
    {
      LeqTotal(a.role, b.role);
      LeqTotal(a.agent, b.agent);
    }
    forall a, b, c | ByPair(a, b) && ByPair(b, c)
      ensures ByPair(a, c)
    {
      LeqTotal(a.role, b.role);
      LeqTotal(a.role, c.role);
      LeqTotal(b.role, c.role);
    }
  }

  // ---- Migration ---------------------------------------------------------------------------

  /** The entries migrated so far, after the explicit ones: one at most for each role looked at,
      for a pair not explicit. */
  ghost predicate Migrated(roles: Roles, before: seq<RoleAssignment>, added: seq<RoleAssignment>, done: set<string>) {
    && (forall i :: 0 <= i < |added| ==> added[i].role in done)
    && (forall i, j :: 0 <= i < j < |added| ==> added[i].role != added[j].role)
    && (forall i :: 0 <= i < |added| ==>
          PairOf(added[i]) in LegacyPairs(roles) && PairOf(added[i]) !in Pairs(before)
          && added[i].preferred == !HasPreferred(before, added[i].role))
    && (forall r :: r in done && r in roles && roles[r].agent.Some? && roles[r].agent.value != ""
          ==> Pair(r, roles[r].agent.value) in Pairs(before + added))
  }

  lemma MigratesNothing(roles: Roles, before: seq<RoleAssignment>, added: seq<RoleAssignment>, done: set<string>,
                        r: string)
    requires Migrated(roles, before, added, done) && r in roles && roles[r].agent.Some?
    requires roles[r].agent.value == "" || Pair(r, roles[r].agent.value) in Pairs(before + added)
    ensures Migrated(roles, before, added, done + {r})
  {
    hide Pairs, HasPreferred, LegacyPairs;
  }

  lemma PreferredOfAnotherRole(before: seq<RoleAssignment>, added: seq<RoleAssignment>, role: string)
    requires forall i :: 0 <= i < |added| ==> added[i].role != role
    ensures HasPreferred(before + added, role) <==> HasPreferred(before, role)
  {}

  lemma MigratesOne(roles: Roles, before: seq<RoleAssignment>, added: seq<RoleAssignment>, done: set<string>, r: string)
    requires Migrated(roles, before, added, done) && r in roles && r !in done
    requires roles[r].agent.Some? && roles[r].agent.value != ""
    requires Pair(r, roles[r].agent.value) !in Pairs(before + added)
    ensures var x := RoleAssignment(r, roles[r].agent.value, !HasPreferred(before + added, r));
      Migrated(roles, before, added + [x], done + {r})
  {
    var x := RoleAssignment(r, roles[r].agent.value, !HasPreferred(before + added, r));
    PreferredOfAnotherRole(before, added, r);
    PairsAppend(before + added, x);
    assert before + added + [x] == before + (added + [x]);
    assert PairOf(x) in LegacyPairs(roles);
    assert PairOf(x) !in Pairs(before) by {
      PairsOfMore(before, added);
    }
    hide Pairs, HasPreferred, LegacyPairs;
    assert Migrated(roles, before, added + [x], done + {r});
  }

  lemma PairsOfMore(before: seq<RoleAssignment>, added: seq<RoleAssignment>)
    ensures Pairs(before + added) == Pairs(before) + Pairs(added)
  {}

  /** The migrated list without duplicates, in order, is what normalizing promises. */
  lemma MigrationKeepsPromise(roles: Roles, before: seq<RoleAssignment>, added: seq<RoleAssignment>, done: set<string>)
    requires Migrated(roles, before, added, done)
    requires forall r :: r in roles && roles[r].agent.Some? ==> r in done
    ensures var after := Sorting.Sort(ByPair, FirstOfEach(before + added));
      Pairs(after) == Pairs(before) + LegacyPairs(roles) && KeepsChoices(before, after)
  {
    hide Migrated, Pairs, LegacyPairs, DistinctPairs, FirstOfEach, IsFirst, HasPreferred, ByPair, Sorting.Sort;
    var all := before + added;
    var after := Sorting.Sort(ByPair, FirstOfEach(all));
    SortedFirsts(all);
    MigratedPairs(roles, before, added, done);
    forall x | x in after
      ensures if PairOf(x) in Pairs(before) then IsFirst(before, x) else x.preferred == !HasPreferred(before, x.role)
    {
      FirstOfEachIsFirst(all, x);
      FirstAmongBoth(roles, before, added, done, x);
    }
  }

  lemma SortedFirsts(s: seq<RoleAssignment>)
    ensures var after := Sorting.Sort(ByPair, FirstOfEach(s));
      Pairs(after) == Pairs(s) && forall x :: x in after <==> x in FirstOfEach(s)
  {
    hide DistinctPairs, FirstOfEach, ByPair, Sorting.Sort;
    ByPairIsOrder();
    Sorting.SortSorts(ByPair, FirstOfEach(s));
    FirstOfEachPairs(s);
    PairsOfSameEntries(Sorting.Sort(ByPair, FirstOfEach(s)), FirstOfEach(s));
  }

  lemma PairsOfSameEntries(s: seq<RoleAssignment>, t: seq<RoleAssignment>)
    requires multiset(s) == multiset(t)
    ensures Pairs(s) == Pairs(t) && forall x :: x in s <==> x in t
  {
    assert forall x :: x in s <==> x in multiset(s);
    assert forall x :: x in t <==> x in multiset(t);
  }

  /** Once every table has been looked at, the pairs are the explicit and the legacy ones. */
  lemma MigratedPairs(roles: Roles, before: seq<RoleAssignment>, added: seq<RoleAssignment>, done: set<string>)
    requires Migrated(roles, before, added, done)
    requires forall r :: r in roles && roles[r].agent.Some? ==> r in done
    ensures Pairs(before + added) == Pairs(before) + LegacyPairs(roles)
  {
    hide HasPreferred;
    PairsOfMore(before, added);
    assert Pairs(added) <= LegacyPairs(roles);
    assert LegacyPairs(roles) <= Pairs(before + added);
  }

  lemma FirstAmongBoth(roles: Roles, before: seq<RoleAssignment>, added: seq<RoleAssignment>, done: set<string>,
                       x: RoleAssignment)
    requires Migrated(roles, before, added, done) && IsFirst(before + added, x)
    ensures if PairOf(x) in Pairs(before) then IsFirst(before, x) else x.preferred == !HasPreferred(before, x.role)
  {
    hide HasPreferred, LegacyPairs;
    var all := before + added;
    var i :| 0 <= i < |all| && all[i] == x && PairOf(x) !in Pairs(all[..i]);
    if i < |before| {
      assert before[i] == x && all[..i] == before[..i] && x in before;
    } else {
      assert all[..i] == before + added[..i - |before|];
      PairsOfMore(before, added[..i - |before|]);
      assert added[i - |before|] == x;
    }
  }

  /** One preferred entry per role at most stays so. */
  lemma AtMostOnePreferredIsKept(before: seq<RoleAssignment>, after: seq<RoleAssignment>, roles: Roles)
    requires AtMostOnePreferred(before) && KeepsChoices(before, after) && DistinctPairs(after)
    requires Pairs(after) <= Pairs(before) + LegacyPairs(roles)
    ensures AtMostOnePreferred(after)
  {
    hide Pairs, LegacyPairs, AtMostOnePreferred, IsFirst, HasPreferred;
    forall i, j | 0 <= i < j < |after| && after[i].role == after[j].role
      ensures !after[i].preferred || !after[j].preferred
    {
      var x, y := after[i], after[j];
      PairIsThere(after, i);
      PairIsThere(after, j);
      PreferredIsExplicit(before, x);
      PreferredIsExplicit(before, y);
      OnePreferredAmong(before, x, y);
      OneLegacyPair(roles, PairOf(x), PairOf(y));
    }
    assert AtMostOnePreferred(after) by { UnfoldPreferred(after); }
  }

  lemma UnfoldPreferred(s: seq<RoleAssignment>)
    ensures AtMostOnePreferred(s) <==>
      forall i, j :: 0 <= i < j < |s| && s[i].role == s[j].role ==> !s[i].preferred || !s[j].preferred
  {}

  lemma PairIsThere(s: seq<RoleAssignment>, i: nat)
    requires i < |s|
    ensures s[i] in s && PairOf(s[i]) in Pairs(s)
  {}

  lemma OnePreferredAmong(s: seq<RoleAssignment>, x: RoleAssignment, y: RoleAssignment)
    requires AtMostOnePreferred(s)
    ensures x in s && y in s && x != y && x.role == y.role ==> !x.preferred || !y.preferred
  {
    if x in s && y in s && x != y {
      var i, j :| 0 <= i < |s| && 0 <= j < |s| && s[i] == x && s[j] == y;
      assert i < j || j < i;
    }
  }

  lemma OneLegacyPair(roles: Roles, p: Pair, q: Pair)
    ensures p in LegacyPairs(roles) && q in LegacyPairs(roles) && p.role == q.role ==> p == q
  {}

  lemma PreferredIsExplicit(before: seq<RoleAssignment>, x: RoleAssignment)
    requires if PairOf(x) in Pairs(before) then IsFirst(before, x) else x.preferred == !HasPreferred(before, x.role)
    ensures x.preferred ==>
      (x in before <==> HasPreferred(before, x.role)) && (PairOf(x) in Pairs(before) <==> x in before)
  {
    if PairOf(x) in Pairs(before) {
      var i :| 0 <= i < |before| && before[i] == x;
      assert x in before;
    }
  }

  lemma NothingMigrated(roles: Roles, before: seq<RoleAssignment>)
    ensures Migrated(roles, before, [], {})
    ensures before == before + []
  {}

  lemma FirstMigrated(roles: Roles, before: seq<RoleAssignment>, added: seq<RoleAssignment>, done: set<string>)
    requires Migrated(roles, before, added, done) && added != []
    ensures PairOf(added[0]) in LegacyPairs(roles)
  {}

  lemma NothingToMigrate(roles: Roles, before: seq<RoleAssignment>, added: seq<RoleAssignment>, done: set<string>)
    requires Migrated(roles, before, added, done) && forall r :: r in roles ==> roles[r].agent == None
    ensures added == [] && before + added == before
  {
    if added != [] {
      FirstMigrated(roles, before, added, done);
    }
  }

  lemma MigratedStaysDistinct(roles: Roles, before: seq<RoleAssignment>, added: seq<RoleAssignment>, done: set<string>)
    requires Migrated(roles, before, added, done)
    ensures DistinctPairs(before + added) <==> DistinctPairs(before)
  {
    hide HasPreferred, LegacyPairs;
    var all := before + added;
    if DistinctPairs(all) {
      forall i, j | 0 <= i < j < |before|
        ensures PairOf(before[i]) != PairOf(before[j])
      {
        assert all[i] == before[i] && all[j] == before[j];
      }
    }
    forall i | 0 <= i < |before|
      ensures PairOf(before[i]) in Pairs(before)
    {
      assert before[i] in before;
    }
  }

  lemma {:induction false} PairsCount(s: seq<RoleAssignment>)
    ensures |Pairs(s)| <= |s|
    ensures |Pairs(s)| == |s| <==> DistinctPairs(s)
  {
    hide DistinctPairs;
    if s == [] {
      NothingIsDistinct();
      assert Pairs(s) == {};
    } else {
      var rest, x := s[..|s| - 1], s[|s| - 1];
      assert s == rest + [x];
      PairsCount(rest);
      PairsAppend(rest, x);
      DistinctAppend(rest, x);
      assert PairOf(x) in Pairs(rest) ==> Pairs(s) == Pairs(rest);
    }
  }

  lemma SortingKeepsPairs(s: seq<RoleAssignment>)
    requires DistinctPairs(s)
    ensures DistinctPairs(Sorting.Sort(ByPair, s)) && Sorting.Sorted(ByPair, Sorting.Sort(ByPair, s))
  {
    hide DistinctPairs;
    ByPairIsOrder();
    Sorting.SortSorts(ByPair, s);
    assert Pairs(Sorting.Sort(ByPair, s)) == Pairs(s);
    PairsCount(s);
    PairsCount(Sorting.Sort(ByPair, s));
  }

  lemma IsNormalized(roles: Roles, s: seq<RoleAssignment>)
    requires forall r :: r in roles ==> roles[r].agent == None && roles[r].defines
    requires DistinctPairs(s) && Sorting.Sorted(ByPair, s)
    ensures Normalized(roles, s)
  {}

  lemma AssignmentsKeepPromise(roles: Roles, before: seq<RoleAssignment>, added: seq<RoleAssignment>)
    requires Migrated(roles, before, added, LegacyRoles(roles))
    ensures var after := Sorting.Sort(ByPair, FirstOfEach(before + added));
      && Pairs(after) == Pairs(before) + LegacyPairs(roles)
      && KeepsChoices(before, after)
      && (AtMostOnePreferred(before) ==> AtMostOnePreferred(after))
      && DistinctPairs(after) && Sorting.Sorted(ByPair, after)
  {
    hide Pairs, LegacyPairs, KeepsChoices, DistinctPairs, Migrated, AtMostOnePreferred, FirstOfEach, Sorting.Sort,
         Sorting.Sorted;
    var after := Sorting.Sort(ByPair, FirstOfEach(before + added));
    MigrationKeepsPromise(roles, before, added, LegacyRoles(roles));
    FirstOfEachPairs(before + added);
    SortingKeepsPairs(FirstOfEach(before + added));
    if AtMostOnePreferred(before) {
      AtMostOnePreferredIsKept(before, after, roles);
    }
  }

  lemma RolesKeepPromise(roles: Roles, before: seq<RoleAssignment>, added: seq<RoleAssignment>, anyLegacy: bool,
                         anyEmpty: bool, anyDuplicate: bool)
    requires Migrated(roles, before, added, LegacyRoles(roles))
    requires anyLegacy <==> LegacyRoles(roles) != {}
    requires anyEmpty <==> UndefinedRoles(Cleared(roles)) != {}
    requires anyDuplicate <==> |FirstOfEach(before + added)| != |before + added|
    ensures Cleared(roles) - UndefinedRoles(Cleared(roles)) == CleanRoles(roles)
    ensures forall r :: r in CleanRoles(roles) ==> CleanRoles(roles)[r].agent == None && CleanRoles(roles)[r].defines
    ensures anyLegacy || anyEmpty || anyDuplicate <==> NeedsRewrite(roles, before)
    ensures Normalized(roles, before) ==>
      !NeedsRewrite(roles, before) && CleanRoles(roles) == roles
      && Sorting.Sort(ByPair, FirstOfEach(before + added)) == before
  {
    hide Pairs, LegacyPairs, DistinctPairs, Migrated, FirstOfEach, Sorting.Sort, Sorting.Sorted;
    FirstOfEachPairs(before + added);
    MigratedStaysDistinct(roles, before, added, LegacyRoles(roles));
    assert UndefinedRoles(Cleared(roles)) == UndefinedRoles(roles);
    if Normalized(roles, before) {
      NothingToMigrate(roles, before, added, LegacyRoles(roles));
      Sorting.SortOfSorted(ByPair, before);
    }
  }

  /** `n` is the value within the bounds that is nearest to `wanted`. */
  predicate IsNearest(n: nat, wanted: nat, low: nat, high: nat) {
    low <= n <= high && (n < wanted ==> n == high) && (n > wanted ==> n == low)
  }

  /** Exactly the tables that define something stay, without their legacy agents. */
  lemma DefiningRolesStay(roles: Roles)
    ensures forall r :: r in CleanRoles(roles) <==> r in roles && roles[r].defines
    ensures forall r :: r in CleanRoles(roles) ==> CleanRoles(roles)[r] == RoleEntry(None, true)
  {}

  class Config {
    var roles: Roles
    var roleAssignments: seq<RoleAssignment>
    var maxFiles: nat
    var maxChars: nat

    method MigrateLegacy() returns (changed: bool, ghost added: seq<RoleAssignment>)
      modifies this`roles, this`roleAssignments
      ensures changed <==> LegacyRoles(old(roles)) != {}
      ensures roles == Cleared(old(roles))
      ensures roleAssignments == old(roleAssignments) + added
      ensures Migrated(old(roles), old(roleAssignments), added, LegacyRoles(old(roles)))
    {
      hide Migrated, HasPreferred, Pairs;
      var legacy := LegacyRoles(roles);
      changed := legacy != {};
      var todo := legacy;
      added := [];
      NothingMigrated(roles, roleAssignments);
      assert legacy - todo == {};
      while todo != {}
        invariant todo <= legacy && roles == old(roles)
        invariant roleAssignments == old(roleAssignments) + added
        invariant Migrated(roles, old(roleAssignments), added, legacy - todo)
      {
        var role :| role in todo;
        var agent := roles[role].agent.value;
        assert legacy - (todo - {role}) == (legacy - todo) + {role};
        todo := todo - {role};
        if agent == "" || Pair(role, agent) in Pairs(roleAssignments) {
          MigratesNothing(roles, old(roleAssignments), added, legacy - todo - {role}, role);
          continue;
        }
        var x := RoleAssignment(role, agent, !HasPreferred(roleAssignments, role));
        MigratesOne(roles, old(roleAssignments), added, legacy - todo - {role}, role);
        roleAssignments := roleAssignments + [x];
        added := added + [x];
      }
      assert legacy - todo == legacy;
      roles := Cleared(roles);
    }

    method DropEmptyRoles() returns (changed: bool)
      requires forall r :: r in roles ==> roles[r].agent == None
      modifies this`roles
      ensures roles == old(roles) - UndefinedRoles(old(roles))
      ensures changed <==> UndefinedRoles(old(roles)) != {}
    {
      var empty := set r | r in roles && roles[r].IsEmpty();
      changed := empty != {};
      assert empty == UndefinedRoles(roles);
      roles := roles - empty;
    }

    method Deduplicate() returns (changed: bool)
      modifies this`roleAssignments
      ensures roleAssignments == Sorting.Sort(ByPair, FirstOfEach(old(roleAssignments)))
      ensures changed <==> |FirstOfEach(old(roleAssignments))| != |old(roleAssignments)|
    {
      var before := |roleAssignments|;
      var seen: set<Pair> := {};
      var kept := [];
      for i := 0 to |roleAssignments|
        invariant roleAssignments == old(roleAssignments)
        invariant seen == Pairs(roleAssignments[..i]) && kept == FirstOfEach(roleAssignments[..i])
      {
        var x := roleAssignments[i];
        assert roleAssignments[..i + 1] == roleAssignments[..i] + [x];
        PairsAppend(roleAssignments[..i], x);
        if PairOf(x) !in seen {
          kept := kept + [x];
        }
        seen := seen + {PairOf(x)};
      }
      assert roleAssignments[..|roleAssignments|] == roleAssignments;
      changed := |kept| != before;
      roleAssignments := Sorting.Sort(ByPair, kept);
    }

    /** Turns legacy single agents into assignments, drops empty role tables and duplicate
        assignments, and orders the rest; reports whether the file must be rewritten. */
    method Normalize() returns (changed: bool)
      modifies this
      ensures Pairs(roleAssignments) == Pairs(old(roleAssignments)) + LegacyPairs(old(roles))
      ensures KeepsChoices(old(roleAssignments), roleAssignments)
      ensures roles == CleanRoles(old(roles))
      ensures forall r :: r in roles <==> r in old(roles) && old(roles)[r].defines
      ensures forall r :: r in roles ==> roles[r] == RoleEntry(None, true)
      ensures Normalized(roles, roleAssignments)
      ensures AtMostOnePreferred(old(roleAssignments)) ==> AtMostOnePreferred(roleAssignments)
      ensures changed <==> NeedsRewrite(old(roles), old(roleAssignments))
      ensures Normalized(old(roles), old(roleAssignments)) ==>
        !changed && roles == old(roles) && roleAssignments == old(roleAssignments)
      ensures IsNearest(maxFiles, old(maxFiles), 1, MAX_CONTEXT_FILES_LIMIT)
      ensures IsNearest(maxChars, old(maxChars), 1_000, MAX_CONTEXT_CHARS_LIMIT)
    {
      hide Pairs, LegacyPairs, KeepsChoices, DistinctPairs, Migrated, AtMostOnePreferred, FirstOfEach, Normalized,
           NeedsRewrite, CleanRoles, Sorting.Sort, Sorting.Sorted;
      ghost var before := roleAssignments;
      var anyLegacy, added := MigrateLegacy();
      var anyEmpty := DropEmptyRoles();
      var anyDuplicate := Deduplicate();
      changed := anyLegacy || anyEmpty || anyDuplicate;
      AssignmentsKeepPromise(old(roles), before, added);
      RolesKeepPromise(old(roles), before, added, anyLegacy, anyEmpty, anyDuplicate);
      IsNormalized(roles, roleAssignments);
      DefiningRolesStay(old(roles));
      maxFiles := if maxFiles < 1 then 1 else if maxFiles > MAX_CONTEXT_FILES_LIMIT then MAX_CONTEXT_FILES_LIMIT
                  else maxFiles;
      maxChars := if maxChars < 1_000 then 1_000 else if maxChars > MAX_CONTEXT_CHARS_LIMIT then MAX_CONTEXT_CHARS_LIMIT
                  else maxChars;
    }
  }
}
