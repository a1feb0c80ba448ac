/** Three-valued list membership judged on the client, against the server's own verdict. */
module Membership {
  import opened Basics
  import opened IssueTypes

  datatype Filter = Filter(
    assigneeId: Option<string>,
    assigneeIds: Option<seq<string>>,
    assigneeTypes: Option<seq<string>>,
    creatorId: Option<string>,
    projectId: Option<string>,
    involvesUserId: Option<string>)

  const NO_FILTER := Filter(None, None, None, None, None, None)

  datatype Dims = Dims(assignee: bool, project: bool, status: bool)

  datatype Verdict = Yes | No | Unknown

  function Decide(b: bool): Verdict {
    if b then Yes else No
  }

  // AND across clauses: any miss is a miss, otherwise any doubt is doubt.
  function Both(a: Verdict, b: Verdict): Verdict {
    if a.No? || b.No? then No
    else if a.Unknown? || b.Unknown? then Unknown
    else Yes
  }

  function AssigneeIdClause(i: Patch, f: Filter): Verdict {
    if f.assigneeId.None? then Yes
    else if i.assigneeId.None? then Unknown
    else Decide(i.assigneeId.value == f.assigneeId)
  }

  function AssigneeIdsClause(i: Patch, f: Filter): Verdict {
    if f.assigneeIds.None? then Yes
    else if i.assigneeId.None? then Unknown
    else Decide(i.assigneeId.value.Some? && i.assigneeId.value.value in f.assigneeIds.value)
  }

  function AssigneeTypesClause(i: Patch, f: Filter): Verdict {
    if f.assigneeTypes.None? then Yes
    else if i.assigneeType.None? then Unknown
    else Decide(i.assigneeType.value.Some? && i.assigneeType.value.value in f.assigneeTypes.value)
  }

  function CreatorClause(i: Patch, f: Filter): Verdict {
    if f.creatorId.None? then Yes
    else if i.creatorId.None? then Unknown
    else Decide(i.creatorId == f.creatorId)
  }

  function ProjectClause(i: Patch, f: Filter): Verdict {
    if f.projectId.None? then Yes
    else if i.projectId.None? then Unknown
    else Decide(i.projectId.value == f.projectId)
  }

  function InvolvesClause(f: Filter): Verdict {
    if f.involvesUserId.None? then Yes else Unknown
  }

  function MatchesListFilter(i: Patch, scope: Option<string>, f: Filter): Verdict {
    if scope == Some("all") then Unknown
    else
      Both(AssigneeIdClause(i, f),
      Both(AssigneeIdsClause(i, f),
      Both(AssigneeTypesClause(i, f),
      Both(CreatorClause(i, f),
      Both(ProjectClause(i, f), InvolvesClause(f))))))
  }

  predicate ListFilterDependsOn(scope: Option<string>, f: Filter, changed: Dims) {
    if scope == Some("all") then changed.assignee
    else
      || (changed.assignee
          && (f.assigneeId.Some? || f.assigneeIds.Some? || f.assigneeTypes.Some? || f.involvesUserId.Some?))
      || (changed.project && f.projectId.Some?)
  }

  function IssueChangedDims(p: Patch, base: Option<Issue>): Dims {
    Dims(
      (p.assigneeId.Some? && (base.None? || base.value.assigneeId != p.assigneeId.value))
      || (p.assigneeType.Some? && (base.None? || base.value.assigneeType != p.assigneeType.value)),
      p.projectId.Some? && (base.None? || base.value.projectId != p.projectId.value),
      p.status.Some? && (base.None? || base.value.status != p.status.value))
  }

  /*** The server's verdict ***/

  // What only the server knows: who is asking, the agent/squad ownership graph behind
  // `involves_user_id`, and the row filters (properties, dates) a list's window carries.
  datatype Server = Server(
    me: string,
    involves: (Option<string>, Option<string>, string) -> bool,
    window: (string, Issue) -> bool)

  predicate InFilter(s: Server, i: Issue, scope: Option<string>, f: Filter) {
    if scope == Some("all") then
      i.assigneeId == Some(s.me) || i.creatorId == s.me || s.involves(i.assigneeId, i.assigneeType, s.me)
    else
      && (f.assigneeId.Some? ==> i.assigneeId == f.assigneeId)
      && (f.assigneeIds.Some? ==> i.assigneeId.Some? && i.assigneeId.value in f.assigneeIds.value)
      && (f.assigneeTypes.Some? ==> i.assigneeType.Some? && i.assigneeType.value in f.assigneeTypes.value)
      && (f.creatorId.Some? ==> Some(i.creatorId) == f.creatorId)
      && (f.projectId.Some? ==> i.projectId == f.projectId)
      && (f.involvesUserId.Some? ==> s.involves(i.assigneeId, i.assigneeType, f.involvesUserId.value))
  }

  // A write as the server commits it: the creator never changes.
  ghost predicate LegalWrite(was: Issue, p: Patch) {
    Merge(was, p).creatorId == was.creatorId
  }

  // The flags name every dimension the write moved (they may name more).
  ghost predicate FlagsCover(changed: Dims, was: Issue, p: Patch) {
    var now := Merge(was, p);
    && (was.assigneeId != now.assigneeId || was.assigneeType != now.assigneeType ==> changed.assignee)
    && (was.projectId != now.projectId ==> changed.project)
    && (was.status != now.status ==> changed.status)
  }

  // `i` is one of the issues the partial issue `p` may be.
  ghost predicate Completes(i: Issue, p: Patch) {
    Merge(i, p) == i
  }

  // A definite client verdict is the server's verdict, whatever the missing fields hold.
  lemma VerdictIsSound(s: Server, p: Patch, i: Issue, scope: Option<string>, f: Filter)
    requires Completes(i, p)
    ensures MatchesListFilter(p, scope, f).Yes? ==> InFilter(s, i, scope, f)
    ensures MatchesListFilter(p, scope, f).No? ==> !InFilter(s, i, scope, f)
  {
    assert p.assigneeId.Some? ==> p.assigneeId.value == i.assigneeId;
    assert p.assigneeType.Some? ==> p.assigneeType.value == i.assigneeType;
    assert p.creatorId.Some? ==> p.creatorId.value == i.creatorId;
    assert p.projectId.Some? ==> p.projectId.value == i.projectId;
  }

  // With the whole entity at hand the client is undecided only where the server alone can tell.
  lemma UnknownOnlyWhenServerSide(i: Issue, scope: Option<string>, f: Filter)
    ensures MatchesListFilter(Whole(i), scope, f).Unknown?
      ==> scope == Some("all") || f.involvesUserId.Some?
  {
  }

  // A write the filter does not depend on keeps the server's verdict.
  lemma IndependentKeepsMembership(s: Server, was: Issue, p: Patch, changed: Dims, scope: Option<string>, f: Filter)
    requires LegalWrite(was, p) && FlagsCover(changed, was, p)
    requires !ListFilterDependsOn(scope, f, changed)
    ensures InFilter(s, was, scope, f) == InFilter(s, Merge(was, p), scope, f)
  {
  }

  // The flags the mutations compute are sound for the true entity, and for no entity at all;
  // against the true entity they are also exact.
  lemma ChangedDimsAreSound(p: Patch, was: Issue)
    ensures FlagsCover(IssueChangedDims(p, Some(was)), was, p)
    ensures FlagsCover(IssueChangedDims(p, None), was, p)
    ensures var d := IssueChangedDims(p, Some(was));
            var now := Merge(was, p);
            && d.assignee == (now.assigneeId != was.assigneeId || now.assigneeType != was.assigneeType)
            && d.project == (now.projectId != was.projectId)
            && d.status == (now.status != was.status)
    ensures IssueChangedDims(p, None) == Dims(p.assigneeId.Some? || p.assigneeType.Some?, p.projectId.Some?, p.status.Some?)
  {
  }

  /*** What the client can and cannot decide ***/

  // In the filter, or out of it, whatever the server knows.
  ghost predicate SurelyIn(i: Issue, scope: Option<string>, f: Filter) {
    forall srv: Server :: InFilter(srv, i, scope, f)
  }

  ghost predicate SurelyOut(i: Issue, scope: Option<string>, f: Filter) {
    forall srv: Server :: !InFilter(srv, i, scope, f)
  }

  // What one server may answer: who asks, and whether the issue involves the user asked for.
  function Says(me: string, involved: bool): Server {
    Server(me, (id, kind, user) => involved, (window, i) => true)
  }

  // The client's verdict on a whole issue is exact: it is in doubt only if servers disagree.
  lemma VerdictIsExact(i: Issue, scope: Option<string>, f: Filter)
    ensures MatchesListFilter(Whole(i), scope, f) ==
      if SurelyIn(i, scope, f) then Yes else if SurelyOut(i, scope, f) then No else Unknown
  {
    forall srv ensures MatchesListFilter(Whole(i), scope, f).Yes? ==> InFilter(srv, i, scope, f)
               ensures MatchesListFilter(Whole(i), scope, f).No? ==> !InFilter(srv, i, scope, f)
    {
      VerdictIsSound(srv, Whole(i), i, scope, f);
    }
    if MatchesListFilter(Whole(i), scope, f).Unknown? {
      var other := i.creatorId + "-" + i.assigneeId.GetOr("");
      assert |other| > |i.creatorId| && |other| > |i.assigneeId.GetOr("")|;
      assert !InFilter(Says(other, false), i, scope, f);
      assert InFilter(Says(i.creatorId, true), i, scope, f);
    } else {
      assert InFilter(Says("", true), i, scope, f) == MatchesListFilter(Whole(i), scope, f).Yes?;
    }
  }

  // Two states of an issue that differ at most in what the flags name.
  predicate Within(changed: Dims, was: Issue, now: Issue) {
    && was.creatorId == now.creatorId
    && (changed.assignee || (was.assigneeId == now.assigneeId && was.assigneeType == now.assigneeType))
    && (changed.project || was.projectId == now.projectId)
  }

  ghost predicate CanMove(scope: Option<string>, f: Filter, changed: Dims) {
    exists srv, was, now :: Within(changed, was, now) && InFilter(srv, was, scope, f) && !InFilter(srv, now, scope, f)
  }

  ghost predicate HasMembers(scope: Option<string>, f: Filter) {
    exists srv, i :: InFilter(srv, i, scope, f)
  }

  // The rules look into a list exactly if a change of the flagged kind can move some issue out of
  // it (and, the other way round, into it). A filter without members needs no look.
  lemma DependsOnIff(scope: Option<string>, f: Filter, changed: Dims)
    ensures CanMove(scope, f, changed) <==> ListFilterDependsOn(scope, f, changed) && HasMembers(scope, f)
  {
    if CanMove(scope, f, changed) {
      var srv, was, now :| Within(changed, was, now) && InFilter(srv, was, scope, f) && !InFilter(srv, now, scope, f);
      assert HasMembers(scope, f);
    }
    if ListFilterDependsOn(scope, f, changed) && HasMembers(scope, f) {
      if scope == Some("all") {
        AssigneesMoveMine(f, changed);
      } else {
        MemberCanMove(scope, f, changed);
      }
    }
  }

  lemma AssigneesMoveMine(f: Filter, changed: Dims)
    requires changed.assignee
    ensures CanMove(Some("all"), f, changed)
  {
    var i := Issue("i", Todo, 0.0, Some("me"), Some("member"), "you", None, "");
    var now := i.(assigneeId := None);
    assert Within(changed, i, now) && InFilter(Says("me", false), i, Some("all"), f);
    assert !InFilter(Says("me", false), now, Some("all"), f);
  }

  // The member loses its assignee, or gets one the server does not count as involved.
  lemma MemberCanMove(scope: Option<string>, f: Filter, changed: Dims)
    requires scope != Some("all") && ListFilterDependsOn(scope, f, changed) && HasMembers(scope, f)
    ensures CanMove(scope, f, changed)
  {
    var any, i :| InFilter(any, i, scope, f);
    var owner := i.assigneeId;
    var srv := Server("", (id, kind, user) => id == owner, (window, x) => true);
    assert InFilter(srv, i, scope, f);
    if changed.project && f.projectId.Some? {
      var now := i.(projectId := None);
      assert Within(changed, i, now) && !InFilter(srv, now, scope, f);
    } else {
      var free := f.assigneeId.None? && f.assigneeIds.None? && f.assigneeTypes.None?;
      var now := i.(assigneeId := if owner == None && free then Some("") else None, assigneeType := None);
      assert Within(changed, i, now) && !InFilter(srv, now, scope, f);
    }
  }
}
