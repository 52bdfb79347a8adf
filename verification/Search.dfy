/** The bounded content search: which paths it keeps, and which directories it reaches. */
module Search {
  import opened Wrappers
  import opened Strings
  import opened Dag
  import Sorting

  const MAX_MATCHED_PATHS: nat := 1_000

  // ---- Keeping the smallest keys ----------------------------------------------------------

  /** `kept` is the `k` smallest of `all`, or all of them if they are fewer. */
  ghost predicate IsSmallest(kept: set<string>, all: set<string>, k: nat) {
    && kept <= all
    && |kept| == (if |all| <= k then |all| else k)
    && forall x, y :: x in kept && y in all && y !in kept ==> Less(x, y)
  }

  /** There is one such selection. */
  lemma SmallestIsUnique(a: set<string>, b: set<string>, all: set<string>, k: nat)
    requires IsSmallest(a, all, k) && IsSmallest(b, all, k)
    ensures a == b
  {
    if a <= b {
      SubsetCount(a, b);
    } else if b <= a {
      SubsetCount(b, a);
    } else {
      var x :| x in a && x !in b;
      var y :| y in b && y !in a;
      LeqTotal(x, y);
    }
  }

  lemma {:induction false} HasLast(s: set<string>)
    requires s != {}
    ensures exists last :: last in s && forall x :: x in s ==> Leq(x, last)
  {
    var x :| x in s;
    LeqTotal(x, x);
    if s != {x} {
      assert s - {x} != {};
      HasLast(s - {x});
      var y :| y in s - {x} && forall z :: z in s - {x} ==> Leq(z, y);
      LeqIsOrder();
      if Leq(x, y) {
        assert forall z :: z in s ==> Leq(z, y);
      } else {
        assert forall z :: z in s ==> Leq(z, x);
      }
    }
  }

  /** Offers one more key to the smallest of the keys offered before. */
  method RetainSmallest(paths: set<string>, key: string, ghost all: set<string>) returns (kept: set<string>)
    requires IsSmallest(paths, all, MAX_MATCHED_PATHS)
    ensures IsSmallest(kept, all + {key}, MAX_MATCHED_PATHS)
  {
    kept := paths;
    if |kept| == MAX_MATCHED_PATHS {
      HasLast(paths);
      var last :| last in paths && forall x :: x in paths ==> Leq(x, last);
      if Leq(last, key) || key in paths {
        NotAmongSmallest(paths, all, key, last);
        return;
      }
      DisplaceLast(paths, all, key, last);
      kept := kept - {last};
    } else {
      StillRoom(paths, all, key);
    }
    kept := kept + {key};
  }

  lemma StillRoom(paths: set<string>, all: set<string>, key: string)
    requires IsSmallest(paths, all, MAX_MATCHED_PATHS) && |paths| != MAX_MATCHED_PATHS
    ensures IsSmallest(paths + {key}, all + {key}, MAX_MATCHED_PATHS)
  {
    SubsetCount(paths, all);
    assert paths == all;
    assert |all + {key}| <= |all| + 1;
  }

  lemma NotAmongSmallest(paths: set<string>, all: set<string>, key: string, last: string)
    requires IsSmallest(paths, all, MAX_MATCHED_PATHS) && |paths| == MAX_MATCHED_PATHS
    requires last in paths && forall x :: x in paths ==> Leq(x, last)
    requires Leq(last, key) || key in paths
    ensures IsSmallest(paths, all + {key}, MAX_MATCHED_PATHS)
  {
    SubsetCount(paths, all + {key});
    if key in all {
      assert all + {key} == all;
    } else {
      forall x | x in paths
        ensures Less(x, key)
      {
        LeqTransitive(x, last, key);
      }
    }
  }

  lemma DisplaceLast(paths: set<string>, all: set<string>, key: string, last: string)
    requires IsSmallest(paths, all, MAX_MATCHED_PATHS) && |paths| == MAX_MATCHED_PATHS
    requires last in paths && forall x :: x in paths ==> Leq(x, last)
    requires !Leq(last, key) && key !in paths
    ensures IsSmallest(paths - {last} + {key}, all + {key}, MAX_MATCHED_PATHS)
  {
    var kept := paths - {last} + {key};
    SubsetCount(kept, all + {key});
    LeqTotal(last, key);
    forall x, y | x in kept && y in all + {key} && y !in kept
      ensures Less(x, y)
    {
      if x == key {
        if y != last { LeqTransitive(key, last, y); LeqTotal(key, y); }
      }
    }
  }

  function Accepted(candidates: seq<Option<string>>): set<string> {
    set c | c in candidates && c.Some? :: c.value
  }

  /** The paths an external search names, as far as the boundary check accepts them. */
  method KeepAccepted(candidates: seq<Option<string>>) returns (paths: set<string>)
    ensures IsSmallest(paths, Accepted(candidates), MAX_MATCHED_PATHS)
  {
    paths := {};
    for i := 0 to |candidates|
      invariant IsSmallest(paths, Accepted(candidates[..i]), MAX_MATCHED_PATHS)
    {
      ghost var all := Accepted(candidates[..i]);
      assert candidates[..i + 1] == candidates[..i] + [candidates[i]];
      if candidates[i].Some? {
        assert Accepted(candidates[..i + 1]) == all + {candidates[i].value};
        paths := RetainSmallest(paths, candidates[i].value, all);
      } else {
        assert Accepted(candidates[..i + 1]) == all;
      }
    }
    assert candidates[..|candidates|] == candidates;
  }

  // ---- The tree that is searched -----------------------------------------------------------

  /** An entry the walk passes over, a directory it descends into, or a file with whether its
      content matches. */
  datatype Entry = Skipped | Directory(dir: Dir) | File(matches: bool)

  datatype Named = Named(name: string, entry: Entry)

  /** A directory: whether it may be listed, its entries by name, and how many entries the
      system fails to deliver. */
  datatype Dir = Dir(readable: bool, listing: seq<Named>, faults: nat)

  datatype Place = Place(prefix: string, dir: Dir)

  predicate ByName(a: Named, b: Named) {
    Leq(a.name, b.name)
  }

  ghost predicate WellFormed(d: Dir)
    decreases d
  {
    && (forall i, j :: 0 <= i < j < |d.listing| ==> Less(d.listing[i].name, d.listing[j].name))
    && forall i :: 0 <= i < |d.listing| && d.listing[i].entry.Directory? ==> WellFormed(d.listing[i].entry.dir)
  }

  /** One order in which the system may deliver a directory's entries, failures among them. */
  ghost predicate Delivers(d: Dir, delivered: seq<Option<Named>>) {
    multiset(delivered) == multiset(Delivered(d.listing)) + multiset(Faults(d.faults))
  }

  function Faults(n: nat): seq<Option<Named>> {
    seq(n, _ => None)
  }

  function Delivered(listing: seq<Named>): seq<Option<Named>> {
    seq(|listing|, i requires 0 <= i < |listing| => Some(listing[i]))
  }

  function Taken(delivered: seq<Option<Named>>): seq<Named>
    requires None !in delivered
  {
    seq(|delivered|, i requires 0 <= i < |delivered| => delivered[i].value)
  }

  /** Takes all entries of a directory if none fails and the budget outlasts them. */
  method CompleteDirectory(delivered: seq<Option<Named>>, remaining: nat)
    returns (ordered: Option<seq<Named>>, left: nat)
    ensures ordered.Some? <==> None !in delivered && |delivered| < remaining
    ensures ordered.Some? ==> ordered.value == Taken(delivered) && left == remaining - |delivered|
  {
    left := remaining;
    var taken := [];
    var i := 0;
    while left > 0
      invariant i <= |delivered| && left + i == remaining
      invariant None !in delivered[..i] && taken == Taken(delivered[..i])
    {
      if i == |delivered| {
        assert delivered[..i] == delivered;
        return Some(taken), left;
      }
      left := left - 1;
      assert delivered[..i + 1] == delivered[..i] + [delivered[i]];
      if delivered[i].None? { return None, left; }
      taken := taken + [delivered[i].value];
      i := i + 1;
    }
    ordered := None;
  }

  // ---- However a directory is delivered, sorting restores its listing --------------------

  lemma {:induction false} DeliveredCount(listing: seq<Named>, x: Named)
    ensures multiset(Delivered(listing))[Some(x)] == multiset(listing)[x]
    ensures multiset(Delivered(listing))[None] == 0
  {
    if listing != [] {
      var last := |listing| - 1;
      DeliveredCount(listing[..last], x);
      assert listing == listing[..last] + [listing[last]];
      assert Delivered(listing) == Delivered(listing[..last]) + [Some(listing[last])];
    } else {
      assert Delivered(listing) == [];
    }
  }

  lemma {:induction false} TakenCount(delivered: seq<Option<Named>>, x: Named)
    requires None !in delivered
    ensures multiset(Taken(delivered))[x] == multiset(delivered)[Some(x)]
  {
    if delivered != [] {
      var last := |delivered| - 1;
      TakenCount(delivered[..last], x);
      assert delivered == delivered[..last] + [delivered[last]];
      assert delivered[last] in delivered;
      assert Taken(delivered) == Taken(delivered[..last]) + [delivered[last].value];
    }
  }

  lemma {:induction false} FaultCount(n: nat)
    ensures multiset(Faults(n))[None] == n
    ensures forall x :: multiset(Faults(n))[Some(x)] == 0
  {
    if n > 0 {
      FaultCount(n - 1);
      assert Faults(n) == Faults(n - 1) + [None];
    } else {
      assert Faults(n) == [];
    }
  }

  lemma DeliveryOfDirectory(d: Dir, delivered: seq<Option<Named>>)
    requires Delivers(d, delivered)
    ensures |delivered| == |d.listing| + d.faults
    ensures None in delivered <==> d.faults > 0
    ensures d.faults == 0 ==> multiset(Taken(delivered)) == multiset(d.listing)
  {
    FaultCount(d.faults);
    assert |multiset(delivered)| == |delivered|;
    assert |Delivered(d.listing)| == |d.listing|;
    forall x
      ensures multiset(delivered)[Some(x)] == multiset(d.listing)[x] && multiset(delivered)[None] == d.faults
    {
      DeliveredCount(d.listing, x);
    }
    assert None in delivered <==> None in multiset(delivered);
    if d.faults == 0 {
      forall x
        ensures multiset(Taken(delivered))[x] == multiset(d.listing)[x]
      {
        TakenCount(delivered, x);
      }
    }
  }

  lemma ByNameIsOrder()
    ensures Sorting.IsOrder(ByName)
  {
    LeqIsOrder();
  }

  lemma SortedDelivery(d: Dir, delivered: seq<Option<Named>>)
    requires WellFormed(d) && Delivers(d, delivered) && None !in delivered
    ensures Sorting.Sort(ByName, Taken(delivered)) == d.listing
  {
    DeliveryOfDirectory(d, delivered);
    ByNameIsOrder();
    var sorted := Sorting.Sort(ByName, Taken(delivered));
    Sorting.SortSorts(ByName, Taken(delivered));
    ListingIsSorted(d);
    Sorting.SortedIsUnique(ByName, d.listing, sorted, set n | n in d.listing);
  }

  lemma ListingIsSorted(d: Dir)
    requires WellFormed(d)
    ensures Sorting.Sorted(ByName, d.listing)
    ensures Sorting.TellsApart(ByName, set n | n in d.listing)
  {
    LeqIsOrder();
    forall x, y | x in d.listing && y in d.listing && ByName(x, y) && ByName(y, x)
      ensures x == y
    {
      var i, j :| 0 <= i < |d.listing| && 0 <= j < |d.listing| && d.listing[i] == x && d.listing[j] == y;
      assert i == j;
    }
  }

  // ---- The directories in order, and how far the budget reaches ----------------------------

  /** The directories below a place, each before its own, siblings by name. */
  function Preorder(p: Place): seq<Place>
    decreases p.dir, 1
  {
    if !p.dir.readable then [] else [p] + PreorderOf(p.prefix, p.dir.listing)
  }

  function PreorderOf(prefix: string, listing: seq<Named>): seq<Place>
    decreases listing, 0
  {
    if listing == [] then []
    else
      (match listing[0].entry
       case Directory(d) => Preorder(Place(prefix + listing[0].name + "/", d))
       case _ => [])
      + PreorderOf(prefix, listing[1..])
  }

  /** How many of the directories are listed in full before the budget runs out or one cannot be
      listed. A directory needs more budget than it has entries. */
  function FullyListed(places: seq<Place>, budget: nat): (n: nat)
    ensures n <= |places|
  {
    if places == [] || places[0].dir.faults > 0 || |places[0].dir.listing| >= budget then 0
    else 1 + FullyListed(places[1..], budget - |places[0].dir.listing|)
  }

  function EntriesOf(places: seq<Place>): nat {
    if places == [] then 0 else |places[0].dir.listing| + EntriesOf(places[1..])
  }

  /** The listed directories are the longest run of faultless ones whose entries all together
      stay below the budget. */
  lemma {:induction false} FullyListedIsMaximal(places: seq<Place>, budget: nat)
    ensures var n := FullyListed(places, budget);
      && (forall i :: 0 <= i < n ==> places[i].dir.faults == 0)
      && (n > 0 ==> EntriesOf(places[..n]) < budget)
      && (n < |places| ==> places[n].dir.faults > 0 || EntriesOf(places[..n + 1]) >= budget)
  {
    var n := FullyListed(places, budget);
    if n > 0 {
      FullyListedIsMaximal(places[1..], budget - |places[0].dir.listing|);
      assert places[..n][1..] == places[1..][..n - 1];
      assert n < |places| ==> places[..n + 1][1..] == places[1..][..n];
    } else if places != [] {
      assert places[..1][1..] == [];
    }
  }

  function KeysIn(prefix: string, listing: seq<Named>): set<string> {
    set n | n in listing && n.entry.File? && n.entry.matches :: prefix + n.name
  }

  function MatchingKeys(places: seq<Place>): set<string> {
    set p, key | p in places && key in KeysIn(p.prefix, p.dir.listing) :: key
  }

  // ---- The walk ------------------------------------------------------------------------------

  function SubPlaces(prefix: string, listing: seq<Named>): seq<Place> {
    if listing == [] then []
    else
      var last := listing[|listing| - 1];
      SubPlaces(prefix, listing[..|listing| - 1])
      + if last.entry.Directory? then [Place(prefix + last.name + "/", last.entry.dir)] else []
  }

  function Reversed(places: seq<Place>): seq<Place> {
    if places == [] then [] else Reversed(places[1..]) + [places[0]]
  }

  /** What a stack of places, its top last, stands for. */
  function Pending(stack: seq<Place>): seq<Place> {
    if stack == [] then [] else Preorder(stack[|stack| - 1]) + Pending(stack[..|stack| - 1])
  }

  lemma PendingTop(stack: seq<Place>, p: Place)
    ensures Pending(stack + [p]) == Preorder(p) + Pending(stack)
  {
    hide Preorder;
    assert (stack + [p])[..|stack|] == stack;
  }

  lemma {:induction false} PendingReversed(stack: seq<Place>, places: seq<Place>)
    ensures Pending(stack + Reversed(places)) == PreorderAll(places) + Pending(stack)
  {
    hide Preorder, Pending;
    if places == [] {
      assert stack + Reversed(places) == stack;
    } else {
      var first, others := places[0], places[1..];
      PendingReversed(stack, others);
      assert stack + Reversed(places) == stack + Reversed(others) + [first];
      PendingTop(stack + Reversed(others), first);
      hide *;
      assert Preorder(first) + (PreorderAll(others) + Pending(stack))
          == Preorder(first) + PreorderAll(others) + Pending(stack);
    }
  }

  function PreorderAll(places: seq<Place>): seq<Place> {
    if places == [] then [] else Preorder(places[0]) + PreorderAll(places[1..])
  }

  lemma {:induction false} PreorderAllAppend(places: seq<Place>, p: Place)
    ensures PreorderAll(places + [p]) == PreorderAll(places) + Preorder(p)
  {
    if places == [] {
      assert PreorderAll([p]) == Preorder(p) + PreorderAll([]);
    } else {
      assert (places + [p])[1..] == places[1..] + [p];
      PreorderAllAppend(places[1..], p);
    }
  }

  lemma {:induction false} PreorderOfAppend(prefix: string, listing: seq<Named>, n: Named)
    ensures PreorderOf(prefix, listing + [n]) == PreorderOf(prefix, listing) + PreorderOf(prefix, [n])
  {
    if listing == [] {
      assert listing + [n] == [n];
    } else {
      assert (listing + [n])[1..] == listing[1..] + [n];
      PreorderOfAppend(prefix, listing[1..], n);
    }
  }

  lemma {:induction false} PreorderOfSubPlaces(prefix: string, listing: seq<Named>)
    ensures PreorderAll(SubPlaces(prefix, listing)) == PreorderOf(prefix, listing)
  {
    if listing != [] {
      var n := listing[|listing| - 1];
      var rest := listing[..|listing| - 1];
      assert listing == rest + [n];
      PreorderOfSubPlaces(prefix, rest);
      PreorderOfAppend(prefix, rest, n);
      assert PreorderOf(prefix, []) == [];
      if n.entry.Directory? {
        PreorderAllAppend(SubPlaces(prefix, rest), Place(prefix + n.name + "/", n.entry.dir));
      } else {
        assert SubPlaces(prefix, listing) == SubPlaces(prefix, rest);
        assert PreorderOf(prefix, [n]) == [];
      }
    }
  }

  /** Replacing the top of the stack by its subdirectories takes the first place off what is
      pending. */
  lemma Descend(stack: seq<Place>)
    requires stack != [] && stack[|stack| - 1].dir.readable
    ensures var top := stack[|stack| - 1];
      Pending(stack) == [top] + Pending(stack[..|stack| - 1] + Reversed(SubPlaces(top.prefix, top.dir.listing)))
  {
    hide *;
    var top, rest := stack[|stack| - 1], stack[..|stack| - 1];
    var below := SubPlaces(top.prefix, top.dir.listing);
    assert stack == rest + [top];
    PendingTop(rest, top);
    PreorderFirst(top);
    PendingReversed(rest, below);
    PreorderOfSubPlaces(top.prefix, top.dir.listing);
    assert [top] + PreorderAll(below) + Pending(rest) == [top] + (PreorderAll(below) + Pending(rest));
  }

  lemma PreorderFirst(p: Place)
    requires p.dir.readable
    ensures Preorder(p) == [p] + PreorderOf(p.prefix, p.dir.listing)
  {}

  ghost predicate AllWellFormed(places: seq<Place>) {
    forall p :: p in places ==> WellFormed(p.dir)
  }

  lemma {:induction false} SubPlacesWellFormed(prefix: string, listing: seq<Named>)
    requires forall i :: 0 <= i < |listing| && listing[i].entry.Directory? ==> WellFormed(listing[i].entry.dir)
    ensures AllWellFormed(SubPlaces(prefix, listing)) && AllWellFormed(Reversed(SubPlaces(prefix, listing)))
  {
    if listing != [] {
      SubPlacesWellFormed(prefix, listing[..|listing| - 1]);
    }
    ReversedElements(SubPlaces(prefix, listing));
  }

  lemma {:induction false} ReversedElements(places: seq<Place>)
    ensures forall p :: p in Reversed(places) <==> p in places
  {
    if places != [] {
      ReversedElements(places[1..]);
      assert places == [places[0]] + places[1..];
    }
  }

  lemma MatchingKeysAppend(places: seq<Place>, p: Place)
    ensures MatchingKeys(places + [p]) == MatchingKeys(places) + KeysIn(p.prefix, p.dir.listing)
  {}

  lemma KeysInAppend(prefix: string, listing: seq<Named>, n: Named)
    ensures KeysIn(prefix, listing + [n])
            == KeysIn(prefix, listing) + if n.entry.File? && n.entry.matches then {prefix + n.name} else {}
  {}

  /** One directory's entries, by name: its matching files are offered and its subdirectories
      collected. */
  method ScanDirectory(prefix: string, ordered: seq<Named>, paths: set<string>, ghost all: set<string>)
    returns (found: set<string>, directories: seq<Place>)
    requires IsSmallest(paths, all, MAX_MATCHED_PATHS)
    ensures IsSmallest(found, all + KeysIn(prefix, ordered), MAX_MATCHED_PATHS)
    ensures directories == SubPlaces(prefix, ordered)
  {
    hide IsSmallest, KeysIn;
    found := paths;
    directories := [];
    KeysOfNothing(prefix);
    assert all + {} == all && ordered[..0] == [];
    for i := 0 to |ordered|
      invariant IsSmallest(found, all + KeysIn(prefix, ordered[..i]), MAX_MATCHED_PATHS)
      invariant directories == SubPlaces(prefix, ordered[..i])
    {
      var n := ordered[i];
      ghost var before := KeysIn(prefix, ordered[..i]);
      assert ordered[..i + 1] == ordered[..i] + [n];
      assert ordered[..i + 1][..i] == ordered[..i];
      KeysInAppend(prefix, ordered[..i], n);
      match n.entry
      case Skipped =>
        assert before + {} == before;
      case Directory(d) =>
        assert before + {} == before;
        directories := directories + [Place(prefix + n.name + "/", d)];
      case File(matches) =>
        if matches {
          assert all + before + {prefix + n.name} == all + (before + {prefix + n.name});
          found := RetainSmallest(found, prefix + n.name, all + before);
        } else {
          assert before + {} == before;
        }
    }
    assert ordered[..|ordered|] == ordered;
  }

  lemma KeysOfNothing(prefix: string)
    ensures KeysIn(prefix, []) == {}
  {}

  /** The walk's own account: `seen` has been searched and the stack holds the rest. */
  ghost predicate Searching(root: Place, budget: nat, seen: seq<Place>, stack: seq<Place>, remaining: nat) {
    && Preorder(root) == seen + Pending(stack)
    && FullyListed(Preorder(root), budget) == |seen| + FullyListed(Pending(stack), remaining)
    && AllWellFormed(stack)
  }

  lemma SearchStarts(root: Place, budget: nat)
    requires WellFormed(root.dir)
    ensures Searching(root, budget, [], [root], budget)
  {
    assert [root][..0] == [];
    assert Pending([root]) == Preorder(root);
  }

  lemma SearchSkips(root: Place, budget: nat, seen: seq<Place>, stack: seq<Place>, remaining: nat)
    requires Searching(root, budget, seen, stack, remaining)
    requires stack != [] && !stack[|stack| - 1].dir.readable
    ensures Searching(root, budget, seen, stack[..|stack| - 1], remaining)
    ensures Pending(stack) == Pending(stack[..|stack| - 1])
  {
    hide FullyListed, WellFormed;
    assert Preorder(stack[|stack| - 1]) == [];
    assert Pending(stack) == Pending(stack[..|stack| - 1]);
  }

  lemma SearchDescends(root: Place, budget: nat, seen: seq<Place>, stack: seq<Place>, remaining: nat)
    requires Searching(root, budget, seen, stack, remaining)
    requires stack != [] && stack[|stack| - 1].dir.readable
    requires stack[|stack| - 1].dir.faults == 0 && |stack[|stack| - 1].dir.listing| < remaining
    ensures var top := stack[|stack| - 1];
      var stack' := stack[..|stack| - 1] + Reversed(SubPlaces(top.prefix, top.dir.listing));
      && Searching(root, budget, seen + [top], stack', remaining - |top.dir.listing|)
      && |Pending(stack')| < |Pending(stack)|
  {
    hide Pending, Preorder;
    var top := stack[|stack| - 1];
    var rest := stack[..|stack| - 1];
    var subdirectories := Reversed(SubPlaces(top.prefix, top.dir.listing));
    var stack' := rest + subdirectories;
    Descend(stack);
    assert Pending(stack)[1..] == Pending(stack');
    assert seen + Pending(stack) == seen + [top] + Pending(stack');
    assert top in stack;
    SubPlacesWellFormed(top.prefix, top.dir.listing);
    assert AllWellFormed(rest + subdirectories);
  }

  /** A directory that cannot be listed in full ends the search. */
  lemma SearchStops(root: Place, budget: nat, seen: seq<Place>, stack: seq<Place>, remaining: nat)
    requires Searching(root, budget, seen, stack, remaining)
    requires stack == [] || (stack[|stack| - 1].dir.readable
               && (stack[|stack| - 1].dir.faults > 0 || |stack[|stack| - 1].dir.listing| >= remaining))
    ensures Preorder(root)[..FullyListed(Preorder(root), budget)] == seen
  {
    if stack != [] {
      Descend(stack);
    }
    assert FullyListed(Pending(stack), remaining) == 0;
  }

  /** The result for every order in which the system delivers each directory: the smallest
      matching keys of the directories listed in full before the budget ran out. */
  method FallbackPaths(root: Dir, budget: nat, deliver: Place -> seq<Option<Named>>) returns (found: set<string>)
    requires WellFormed(root)
    requires forall p: Place :: Delivers(p.dir, deliver(p))
    ensures var places := Preorder(Place("", root));
      IsSmallest(found, MatchingKeys(places[..FullyListed(places, budget)]), MAX_MATCHED_PATHS)
  {
    hide IsSmallest, MatchingKeys, Searching, Preorder, FullyListed, Pending, WellFormed, Delivers;
    var remaining := budget;
    ghost var start := Place("", root);
    ghost var seen: seq<Place> := [];
    found := {};
    var stack := [Place("", root)];
    SearchStarts(start, budget);
    NothingFound();
    while stack != []
      invariant Searching(start, budget, seen, stack, remaining)
      invariant IsSmallest(found, MatchingKeys(seen), MAX_MATCHED_PATHS)
      decreases |Pending(stack)|, |stack|
    {
      var place := stack[|stack| - 1];
      var rest := stack[..|stack| - 1];
      StackIsWellFormed(start, budget, seen, stack, remaining);
      if !place.dir.readable {
        SearchSkips(start, budget, seen, stack, remaining);
        stack := rest;
        continue;
      }
      var delivered := deliver(place);
      DeliveryOfDirectory(place.dir, delivered);
      var listed, left := CompleteDirectory(delivered, remaining);
      if listed.None? {
        SearchStops(start, budget, seen, stack, remaining);
        return;
      }
      SortedDelivery(place.dir, delivered);
      var ordered := Sorting.Sort(ByName, listed.value);
      var directories;
      MatchingKeysAppend(seen, place);
      SearchDescends(start, budget, seen, stack, remaining);
      found, directories := ScanDirectory(place.prefix, ordered, found, MatchingKeys(seen));
      remaining := left;
      seen := seen + [place];
      stack := rest + Reversed(directories);
    }
    SearchStops(start, budget, seen, stack, remaining);
  }

  lemma NothingFound()
    ensures IsSmallest({}, MatchingKeys([]), MAX_MATCHED_PATHS)
  {
    assert MatchingKeys([]) == {};
  }

  lemma StackIsWellFormed(root: Place, budget: nat, seen: seq<Place>, stack: seq<Place>, remaining: nat)
    requires Searching(root, budget, seen, stack, remaining) && stack != []
    ensures WellFormed(stack[|stack| - 1].dir)
  {
    assert stack[|stack| - 1] in stack;
  }
}
