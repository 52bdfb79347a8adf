/** Integrating approved work into the branch of a run. */
module Integration {
  import opened Wrappers

  /** A commit with the commits it was made from. */
  datatype Commit = Commit(id: nat, parents: seq<Commit>)

  predicate IsAncestor(a: Commit, b: Commit)
    decreases b
  {
    a == b || exists i :: 0 <= i < |b.parents| && IsAncestor(a, b.parents[i])
  }

  lemma OwnAncestor(a: Commit)
    ensures IsAncestor(a, a)
  {}

  lemma {:induction false} AncestorsChain(a: Commit, b: Commit, c: Commit)
    requires IsAncestor(a, b) && IsAncestor(b, c)
    ensures IsAncestor(a, c)
    decreases c
  {
    if b != c {
      var i :| 0 <= i < |c.parents| && IsAncestor(b, c.parents[i]);
      AncestorsChain(a, b, c.parents[i]);
    }
  }

  /** The changes `ids` made again, one commit each, on top of `onto`. */
  function Replay(onto: Commit, ids: seq<nat>): Commit {
    if ids == [] then onto else Commit(ids[|ids| - 1], [Replay(onto, ids[..|ids| - 1])])
  }

  lemma {:induction false} ReplayStandsOn(onto: Commit, ids: seq<nat>)
    ensures IsAncestor(onto, Replay(onto, ids))
  {
    if ids != [] {
      ReplayStandsOn(onto, ids[..|ids| - 1]);
      assert Replay(onto, ids).parents[0] == Replay(onto, ids[..|ids| - 1]);
    }
  }

  datatype Trouble = Fault | Conflict

  /** Where a write fails, if one does: the first one, the one after the branch was made, the
      record of a conflict, and the ones after the branch moved and after that was recorded. */
  datatype Failure = Never | AtStart | OnceBranched | OnConflict | OnceMoved | OnceRecorded

  /** One approved attempt: its worktree, a change not committed yet, and how a rebase of it
      goes. */
  datatype Work = Work(head: Commit, uncommitted: Option<nat>, rebase: Option<seq<nat>>)

  class RunBranch {
    var branch: Option<Commit>
    var recorded: Option<Commit>
    /** Every head the branch has had, the current one last. */
    ghost var heads: seq<Commit>

    constructor ()
      ensures Valid() && Exact() && heads == []
    {
      branch, recorded, heads := None, None, [];
    }

    /** No head was ever lost: each is an ancestor of the current one, as is the recorded one. */
    ghost predicate Valid()
      reads this
    {
      match branch
      case None => heads == [] && recorded == None
      case Some(current) =>
        && heads != [] && heads[|heads| - 1] == current
        && (forall i :: 0 <= i < |heads| ==> IsAncestor(heads[i], current))
        && (recorded.Some? ==> IsAncestor(recorded.value, current))
    }

    function Heads(): BranchHeads
      reads this
    {
      BranchHeads(branch, recorded)
    }

    /** The recorded head is absent or the branch head. */
    predicate Exact()
      reads this
    {
      IsExact(Heads())
    }

    method MoveTo(head: Commit)
      requires Valid() && (branch.Some? ==> IsAncestor(branch.value, head))
      modifies this`branch, this`heads
      ensures Valid() && branch == Some(head) && heads == old(heads) + [head]
    {
      forall i | 0 <= i < |heads|
        ensures IsAncestor(heads[i], head)
      {
        AncestorsChain(heads[i], branch.value, head);
      }
      if recorded.Some? {
        AncestorsChain(recorded.value, branch.value, head);
      }
      branch := Some(head);
      heads := heads + [head];
    }

    /** Brings one approved worktree into the branch. Nothing is integrated exactly when the work
        adds no commit, or an error is met; the branch moves unless an earlier write fails. The
        record is exact afterwards exactly if its own write followed the move or was not needed. */
    method Integrate(mainHead: Commit, work: Work, failure: Failure) returns (r: Result<Option<Commit>, Trouble>)
      requires Valid()
      modifies this
      ensures Valid() && old(heads) <= heads
      ensures Heads() == HeadsAfter(old(Heads()), mainHead, work, failure)
      ensures r == Outcome(old(RunHead(mainHead)), work, failure)
      ensures r.Ok? && r.value.Some? ==> branch == recorded == r.value == Target(old(RunHead(mainHead)), work)
      ensures r.Ok? ==> (r.value.None? <==> Committed(work) == old(RunHead(mainHead)))
      ensures r == Err(Conflict) <==> r != Err(Fault) && Target(old(RunHead(mainHead)), work) == None
      ensures r.Ok? <==> r != Err(Fault) && Target(old(RunHead(mainHead)), work).Some?
      ensures r == Err(Fault) <==> Fails(old(RunHead(mainHead)), work, failure)
      ensures r == Ok(None) || r == Err(Conflict) ==>
        branch == Some(old(RunHead(mainHead))) && recorded == old(recorded)
      ensures Exact() <==>
        if Moves(old(RunHead(mainHead)), work, failure)
        then failure != OnceMoved || old(recorded) == None
             || old(recorded) == Target(old(RunHead(mainHead)), work)
        else old(Exact())
    {
      hide IsAncestor, Replay;
      if failure == AtStart { return Err(Fault); }
      if branch == None { MoveTo(mainHead); }
      var runHead := branch.value;
      if failure == OnceBranched { return Err(Fault); }
      var head := Committed(work);
      OwnAncestor(head);
      if head == runHead { return Ok(None); }
      if !IsAncestor(runHead, head) {
        if work.rebase == None {
          if failure == OnConflict { return Err(Fault); }
          return Err(Conflict);
        }
        head := Replay(runHead, work.rebase.value);
        ReplayStandsOn(runHead, work.rebase.value);
      }
      MoveTo(head);
      if failure == OnceMoved { return Err(Fault); }
      recorded := Some(head);
      if failure == OnceRecorded { return Err(Fault); }
      r := Ok(Some(head));
    }

    /** The head that work is integrated into: the branch, or the main head it starts from. */
    function RunHead(mainHead: Commit): Commit
      reads this
    {
      HeadToExtend(Heads(), mainHead)
    }

    /** Over any sequence of integrations every earlier head stays an ancestor of the branch, as
        does the recorded head; both heads, the works that meet an error, and whether the record is
        exact are known from the works and from the writes that fail. */
    method IntegrateAll(mainHead: Commit, works: seq<Work>, failures: seq<Failure>)
      returns (outcomes: seq<Result<Option<Commit>, Trouble>>)
      requires Valid() && |failures| == |works|
      modifies this
      ensures Valid() && old(heads) <= heads && |outcomes| == |works|
      ensures Heads() == HeadsAfterAll(old(Heads()), mainHead, works, failures)
      ensures forall i :: 0 <= i < |works| ==> outcomes[i] == OutcomeAt(old(Heads()), mainHead, works, failures, i)
      ensures Exact() <==> RecordFollows(old(Heads()), mainHead, works, failures)
      ensures old(Exact()) && Err(Fault) !in outcomes ==> Exact()
      ensures forall i :: 0 <= i < |works| && Integrated(outcomes[i]) && Err(Fault) !in outcomes[i..] ==> Exact()
      ensures (forall o :: o in outcomes ==> MovesNothing(o)) ==>
        recorded == old(recorded) && (old(branch).Some? ==> branch == old(branch))
      ensures !old(Exact()) && (forall o :: o in outcomes ==> MovesNothing(o)) ==> !Exact()
      ensures old(branch).Some? && (forall i :: 0 <= i < |works| ==> Committed(works[i]) == old(branch).value) ==>
        recorded == old(recorded) && branch == old(branch)
    {
      outcomes := [];
      for i := 0 to |works|
        invariant Valid() && old(heads) <= heads && |outcomes| == i
        invariant Heads() == HeadsAt(old(Heads()), mainHead, works, failures, i)
        invariant forall j :: 0 <= j < i ==> outcomes[j] == OutcomeAt(old(Heads()), mainHead, works, failures, j)
        invariant old(Exact()) && Err(Fault) !in outcomes ==> Exact()
        invariant forall j :: 0 <= j < i && Integrated(outcomes[j]) && Err(Fault) !in outcomes[j..] ==> Exact()
        invariant (forall o :: o in outcomes ==> MovesNothing(o)) ==>
          recorded == old(recorded) && (old(branch).Some? ==> branch == old(branch))
      {
        hide HeadsAfterAll, RecordFollows, Fails, Committed, Target;
        ghost var before := outcomes;
        var r := Integrate(mainHead, works[i], failures[i]);
        HeadsStep(old(Heads()), mainHead, works, failures, i);
        outcomes := outcomes + [r];
        hide HeadsAt, HeadsAfter;
        assert r in outcomes && forall o :: o in before ==> o in outcomes;
        forall j | 0 <= j <= i && Integrated(outcomes[j]) && Err(Fault) !in outcomes[j..]
          ensures Exact()
        {
          assert outcomes[j..][i - j] == r;
          if j < i {
            assert forall x :: x in before[j..] ==> x in outcomes[j..] by { PrefixStaysIn(before, r, j); }
          }
        }
      }
      assert works[..|works|] == works && failures[..|works|] == failures;
      RecordFollowsExactly(old(Heads()), mainHead, works, failures);
      NothingNewChangesNothing(old(Heads()), mainHead, works, failures);
    }
  }

  /** A write that fails after the branch moved leaves a recorded head that is neither absent nor
      the branch head; trying the same work again finds nothing to integrate and leaves it so. */
  method RetryLeavesTheRecordStale(mainHead: Commit, first: nat, second: nat) returns (b: RunBranch)
    ensures b.Valid() && b.branch.Some? && b.recorded.Some? && b.recorded != b.branch
  {
    b := new RunBranch();
    var one := Commit(first, [mainHead]);
    var two := Commit(second, [one]);
    StandsOnItsParent(mainHead, one);
    StandsOnItsParent(one, two);
    var r := b.Integrate(mainHead, Work(one, None, None), Never);
    assert Target(mainHead, Work(one, None, None)) == Some(one);
    assert r.Ok? && r.value == Some(one);
    r := b.Integrate(mainHead, Work(two, None, None), OnceMoved);
    assert Target(one, Work(two, None, None)) == Some(two);
    assert r == Err(Fault) && b.branch == Some(two) && b.recorded == Some(one);
    r := b.Integrate(mainHead, Work(two, None, None), Never);
    assert Target(two, Work(two, None, None)) == Some(two);
    assert r.Ok? && r.value == None;
  }

  lemma StandsOnItsParent(parent: Commit, child: Commit)
    requires child.parents == [parent]
    ensures IsAncestor(parent, child) && parent != child
  {
    assert child.parents[0] == parent;
  }

  predicate Integrated(r: Result<Option<Commit>, Trouble>) {
    r.Ok? && r.value.Some?
  }

  predicate MovesNothing(r: Result<Option<Commit>, Trouble>) {
    r == Ok(None) || r == Err(Conflict)
  }

  lemma PrefixStaysIn<T>(s: seq<T>, x: T, j: nat)
    requires j <= |s|
    ensures forall y :: y in s[j..] ==> y in (s + [x])[j..]
  {
    assert (s + [x])[j..] == s[j..] + [x];
  }

  /** The head of a worktree once its open change is committed. */
  function Committed(work: Work): Commit {
    if work.uncommitted.Some? then Commit(work.uncommitted.value, [work.head]) else work.head
  }

  /** The head the branch is to get from `work`: the work itself if it stands on `runHead`, the
      work replayed if it does not; none if the replay meets a conflict. */
  function Target(runHead: Commit, work: Work): Option<Commit> {
    if IsAncestor(runHead, Committed(work)) then Some(Committed(work))
    else if work.rebase.Some? then Some(Replay(runHead, work.rebase.value))
    else None
  }

  // ---- What is in an integrated head ---------------------------------------------------------

  /** `line` leads from `onto` to `head`, one commit for each of the changes, in order. */
  predicate IsLine(onto: Commit, ids: seq<nat>, head: Commit, line: seq<Commit>) {
    && |line| == |ids| + 1 && line[0] == onto && line[|ids|] == head
    && forall i :: 0 <= i < |ids| ==> line[i + 1] == Commit(ids[i], [line[i]])
  }

  lemma {:induction false} ReplayMakesEachChange(onto: Commit, ids: seq<nat>) returns (line: seq<Commit>)
    ensures IsLine(onto, ids, Replay(onto, ids), line)
  {
    if ids == [] {
      line := [onto];
    } else {
      line := ReplayMakesEachChange(onto, ids[..|ids| - 1]);
      line := line + [Replay(onto, ids)];
    }
  }

  /** The head that work gives the branch keeps all that was there and all of the work: the worktree
      with its open change committed on top, or each of its changes made again on the branch. */
  lemma IntegratedHeadHoldsAll(runHead: Commit, work: Work)
    requires Target(runHead, work).Some?
    ensures var head := Target(runHead, work).value;
      && IsAncestor(runHead, head)
      && if IsAncestor(runHead, Committed(work))
         then if work.uncommitted.Some? then head.id == work.uncommitted.value && head.parents == [work.head]
              else head == work.head
         else work.rebase.Some? && exists line :: IsLine(runHead, work.rebase.value, head, line)
  {
    hide IsAncestor;
    if !IsAncestor(runHead, Committed(work)) {
      ReplayStandsOn(runHead, work.rebase.value);
      var line := ReplayMakesEachChange(runHead, work.rebase.value);
    }
  }

  // ---- The two heads as a function of the works ----------------------------------------------

  datatype BranchHeads = BranchHeads(branch: Option<Commit>, recorded: Option<Commit>)

  predicate IsExact(h: BranchHeads) {
    h.recorded == None || h.recorded == h.branch
  }

  /** Nothing is recorded before the branch is there. */
  predicate Started(h: BranchHeads) {
    h.branch == None ==> h.recorded == None
  }

  function HeadToExtend(h: BranchHeads, mainHead: Commit): Commit {
    if h.branch.Some? then h.branch.value else mainHead
  }

  /** The work gets as far as moving the branch. */
  predicate Moves(runHead: Commit, work: Work, failure: Failure) {
    && failure != AtStart && failure != OnceBranched
    && Committed(work) != runHead && Target(runHead, work).Some?
  }

  /** The failing write is one that is reached. */
  predicate Fails(runHead: Commit, work: Work, failure: Failure) {
    || failure == AtStart || failure == OnceBranched
    || (failure == OnConflict && Target(runHead, work) == None)
    || ((failure == OnceMoved || failure == OnceRecorded) && Moves(runHead, work, failure))
  }

  function Outcome(runHead: Commit, work: Work, failure: Failure): Result<Option<Commit>, Trouble> {
    if Fails(runHead, work, failure) then Err(Fault)
    else
      match Target(runHead, work)
      case None => Err(Conflict)
      case Some(head) => Ok(if Committed(work) == runHead then None else Some(head))
  }

  function HeadsAfter(h: BranchHeads, mainHead: Commit, work: Work, failure: Failure): BranchHeads {
    var runHead := HeadToExtend(h, mainHead);
    if failure == AtStart then h
    else if !Moves(runHead, work, failure) then BranchHeads(Some(runHead), h.recorded)
    else
      var head := Target(runHead, work);
      BranchHeads(head, if failure == OnceMoved then h.recorded else head)
  }

  function HeadsAfterAll(h: BranchHeads, mainHead: Commit, works: seq<Work>, failures: seq<Failure>): BranchHeads
    requires |failures| == |works|
  {
    if works == [] then h
    else
      var last := |works| - 1;
      HeadsAfter(HeadsAfterAll(h, mainHead, works[..last], failures[..last]), mainHead, works[last], failures[last])
  }

  /** The heads that the `i`-th work meets. */
  function HeadsAt(h: BranchHeads, mainHead: Commit, works: seq<Work>, failures: seq<Failure>, i: nat): BranchHeads
    requires |failures| == |works| && i <= |works|
  {
    HeadsAfterAll(h, mainHead, works[..i], failures[..i])
  }

  predicate MovesAt(h: BranchHeads, mainHead: Commit, works: seq<Work>, failures: seq<Failure>, i: nat)
    requires |failures| == |works| && i < |works|
  {
    Moves(HeadToExtend(HeadsAt(h, mainHead, works, failures, i), mainHead), works[i], failures[i])
  }

  function OutcomeAt(h: BranchHeads, mainHead: Commit, works: seq<Work>, failures: seq<Failure>, i: nat)
    : Result<Option<Commit>, Trouble>
    requires |failures| == |works| && i < |works|
  {
    Outcome(HeadToExtend(HeadsAt(h, mainHead, works, failures, i), mainHead), works[i], failures[i])
  }

  /** The `i`-th work, if it moves the branch, leaves the record at the new head: it records it, or
      nothing else was recorded. */
  predicate RecordsAt(h: BranchHeads, mainHead: Commit, works: seq<Work>, failures: seq<Failure>, i: nat)
    requires |failures| == |works| && i < |works|
  {
    var before := HeadsAt(h, mainHead, works, failures, i);
    || failures[i] != OnceMoved || before.recorded == None
    || before.recorded == Target(HeadToExtend(before, mainHead), works[i])
  }

  /** The last work to move the branch has its head recorded, or none moves it and the record was
      exact. */
  predicate RecordFollows(h: BranchHeads, mainHead: Commit, works: seq<Work>, failures: seq<Failure>)
    requires |failures| == |works|
  {
    || (exists i :: 0 <= i < |works| && MovesAt(h, mainHead, works, failures, i)
                    && RecordsAt(h, mainHead, works, failures, i)
                    && forall j :: i < j < |works| ==> !MovesAt(h, mainHead, works, failures, j))
    || ((forall i :: 0 <= i < |works| ==> !MovesAt(h, mainHead, works, failures, i)) && IsExact(h))
  }

  lemma HeadsStep(h: BranchHeads, mainHead: Commit, works: seq<Work>, failures: seq<Failure>, i: nat)
    requires |failures| == |works| && i < |works|
    ensures HeadsAt(h, mainHead, works, failures, i + 1) ==
            HeadsAfter(HeadsAt(h, mainHead, works, failures, i), mainHead, works[i], failures[i])
  {
    assert works[..i + 1][..i] == works[..i] && failures[..i + 1][..i] == failures[..i];
  }

  /** Works whose commits are all on the branch already change neither head. */
  lemma {:induction false} NothingNewChangesNothing(h: BranchHeads, mainHead: Commit, works: seq<Work>,
                                                    failures: seq<Failure>)
    requires |failures| == |works|
    ensures h.branch.Some? && (forall i :: 0 <= i < |works| ==> Committed(works[i]) == h.branch.value) ==>
      HeadsAfterAll(h, mainHead, works, failures) == h
  {
    hide Committed, Target;
    if works != [] {
      var last := |works| - 1;
      NothingNewChangesNothing(h, mainHead, works[..last], failures[..last]);
    }
  }

  /** After any sequence the record is exact exactly if it follows the works, all of which is known
      beforehand. */
  lemma {:induction false} RecordFollowsExactly(h: BranchHeads, mainHead: Commit, works: seq<Work>,
                                                failures: seq<Failure>)
    requires |failures| == |works| && Started(h)
    ensures Started(HeadsAfterAll(h, mainHead, works, failures))
    ensures IsExact(HeadsAfterAll(h, mainHead, works, failures)) <==> RecordFollows(h, mainHead, works, failures)
  {
    if works != [] {
      var last := |works| - 1;
      var ws, fs := works[..last], failures[..last];
      RecordFollowsExactly(h, mainHead, ws, fs);
      FollowsStep(h, mainHead, works, failures);
    }
  }

  lemma FollowsStep(h: BranchHeads, mainHead: Commit, works: seq<Work>, failures: seq<Failure>)
    requires |failures| == |works| && works != []
    ensures var last := |works| - 1;
      RecordFollows(h, mainHead, works, failures) <==>
      if MovesAt(h, mainHead, works, failures, last) then RecordsAt(h, mainHead, works, failures, last)
      else RecordFollows(h, mainHead, works[..last], failures[..last])
  {
    hide HeadsAfterAll, Moves, Target;
    var last := |works| - 1;
    var ws, fs := works[..last], failures[..last];
    forall i | 0 <= i < last
      ensures MovesAt(h, mainHead, ws, fs, i) == MovesAt(h, mainHead, works, failures, i)
      ensures RecordsAt(h, mainHead, ws, fs, i) == RecordsAt(h, mainHead, works, failures, i)
    {
      assert ws[..i] == works[..i] && fs[..i] == failures[..i];
    }
    hide MovesAt, RecordsAt;
    if MovesAt(h, mainHead, works, failures, last) {
    } else if RecordFollows(h, mainHead, ws, fs) {
      if i :| 0 <= i < last && MovesAt(h, mainHead, ws, fs, i) && RecordsAt(h, mainHead, ws, fs, i)
              && forall j :: i < j < last ==> !MovesAt(h, mainHead, ws, fs, j)
      {
        assert MovesAt(h, mainHead, works, failures, i);
      }
    }
  }

  /** Unless a write fails between the move of the branch and its record, an exact record stays
      exact. */
  lemma NoLostRecordStaysExact(h: BranchHeads, mainHead: Commit, works: seq<Work>, failures: seq<Failure>)
    requires |failures| == |works| && Started(h) && IsExact(h) && OnceMoved !in failures
    ensures IsExact(HeadsAfterAll(h, mainHead, works, failures))
  {
    hide HeadsAfterAll, MovesAt;
    RecordFollowsExactly(h, mainHead, works, failures);
    if i :| 0 <= i < |works| && MovesAt(h, mainHead, works, failures, i) {
      var k := LastMove(h, mainHead, works, failures, i);
      assert failures[k] in failures;
    }
  }

  lemma {:induction false} LastMove(h: BranchHeads, mainHead: Commit, works: seq<Work>, failures: seq<Failure>, i: nat)
    returns (k: nat)
    requires |failures| == |works| && i < |works| && MovesAt(h, mainHead, works, failures, i)
    ensures k < |works| && MovesAt(h, mainHead, works, failures, k)
    ensures forall j :: k < j < |works| ==> !MovesAt(h, mainHead, works, failures, j)
    decreases |works| - i
  {
    hide MovesAt;
    if j :| i < j < |works| && MovesAt(h, mainHead, works, failures, j) {
      k := LastMove(h, mainHead, works, failures, j);
    } else {
      k := i;
    }
  }
}
