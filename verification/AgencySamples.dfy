/** A small work order with profiles and appeals under it, and the runs that commit them. */
module AgencySamples {
  import opened Collections
  import opened AgencyHistory
  import opened AgencyLedger

  lemma SampleBindings(workOrder: WorkOrder)
    requires |workOrder.keyBindings| == 3
    requires workOrder.keyBindings[0].role == Acceptor && workOrder.keyBindings[1].role == Developer
    requires workOrder.keyBindings[2].role == Sidecar
    ensures UniqueBinding(workOrder, Acceptor) == Some(workOrder.keyBindings[0])
    ensures UniqueBinding(workOrder, Sidecar) == Some(workOrder.keyBindings[2])
  {
    var bindings := workOrder.keyBindings;
    forall role
      ensures WithRole(bindings, role)
           == (if bindings[0].role == role then [bindings[0]] else [])
            + (if bindings[1].role == role then [bindings[1]] else [])
            + (if bindings[2].role == role then [bindings[2]] else [])
    {
      assert bindings[1..][1..] == bindings[2..] && bindings[2..][1..] == [];
      assert WithRole(bindings[2..], role) == if bindings[2].role == role then [bindings[2]] else [];
      assert WithRole(bindings[1..], role)
          == (if bindings[1].role == role then [bindings[1]] else []) + WithRole(bindings[2..], role);
    }
  }

  function SampleWorkOrder(): WorkOrder {
    WorkOrder(0, 100, {"owp.run_tests"},
              [KeyBinding(Acceptor, "customer", 1, true), KeyBinding(Developer, "agent", 2, true),
               KeyBinding(Sidecar, "sidecar", 3, true)])
  }

  function SampleProfile(n: nat): Profile {
    Profile(n, 0, {"owp.run_tests"}, {}, 0, 100, 0, n, n, 1, Signature(1, ProfileDomain, n))
  }

  lemma SampleVerifies(n: nat)
    ensures VerifyProfile(SampleProfile(n), SampleWorkOrder())
  {
    SampleBindings(SampleWorkOrder());
  }

  function SampleAppeals(n: nat): (appeals: seq<Appeal>)
    ensures |appeals| == n
    ensures forall i :: 0 <= i < n ==>
      appeals[i] == Appeal(i, 0, 7, 7, Developer, "agent", i, i, 2, Signature(2, AppealDomain, i))
  {
    seq(n, i requires 0 <= i < n => Appeal(i, 0, 7, 7, Developer, "agent", i, i, 2, Signature(2, AppealDomain, i)))
  }

  lemma SampleAppealVerifies(appeal: Appeal)
    requires appeal == Appeal(appeal.id, 0, 7, 7, Developer, "agent", appeal.id, appeal.id, 2,
                              Signature(2, AppealDomain, appeal.id))
    ensures VerifyAppeal(appeal, SampleWorkOrder())
  {
    var bindings := SampleWorkOrder().keyBindings;
    assert bindings[1..][1..] == bindings[2..] && bindings[2..][1..] == [];
    assert AppellantBindings(bindings[2..], appeal) == [];
    assert AppellantBindings(bindings[1..], appeal) == [bindings[1]];
  }

  lemma {:induction false} RunAppend(ledger: Ledger, operations: seq<Operation>, last: Operation)
    ensures Run(ledger, operations + [last]) == Apply(Run(ledger, operations), last)
    decreases |operations|
  {
    if operations == [] {
      assert [last][1..] == [];
    } else {
      assert (operations + [last])[1..] == operations[1..] + [last];
      RunAppend(Apply(ledger, operations[0]), operations[1..], last);
    }
  }

  lemma {:induction false} InsertLast<T>(rows: seq<T>, row: T, id: T -> nat)
    requires forall r :: r in rows ==> id(r) <= id(row)
    ensures InsertRow(rows, row, id) == rows + [row]
  {
    if rows != [] {
      InsertLast(rows[1..], row, id);
      assert rows == [rows[0]] + rows[1..];
    }
  }

  /** Commits of the first `n` sample profiles. */
  function ProfileCommits(n: nat): seq<Operation> {
    seq(n, i requires 0 <= i < n => AddProfile(SampleProfile(i)))
  }

  function SampleProfiles(n: nat): seq<Profile> {
    seq(n, i requires 0 <= i < n => SampleProfile(i))
  }

  lemma {:induction false} ProfilesAreCommitted(n: nat)
    ensures Run(EmptyLedger(SampleWorkOrder()), ProfileCommits(n)) == Ledger(SampleWorkOrder(), SampleProfiles(n), [], [])
  {
    if n == 0 {
      assert ProfileCommits(0) == [] && SampleProfiles(0) == [];
    } else {
      ProfilesAreCommitted(n - 1);
      var next := SampleProfile(n - 1);
      assert ProfileCommits(n) == ProfileCommits(n - 1) + [AddProfile(next)];
      assert SampleProfiles(n) == SampleProfiles(n - 1) + [next];
      RunAppend(EmptyLedger(SampleWorkOrder()), ProfileCommits(n - 1), AddProfile(next));
      NextProfileIsCommitted(n - 1);
    }
  }

  lemma NextProfileIsCommitted(n: nat)
    ensures var before := Ledger(SampleWorkOrder(), SampleProfiles(n), [], []);
      Apply(before, AddProfile(SampleProfile(n))) == before.(profiles := SampleProfiles(n) + [SampleProfile(n)])
  {
    var before := Ledger(SampleWorkOrder(), SampleProfiles(n), [], []);
    SampleVerifies(n);
    forall p | p in before.profiles
      ensures p.id < n && p.nonce < n && p.digest < n
    {
    }
    assert CommitProfileOutcome(before, SampleProfile(n)) == Committed;
    InsertLast(before.profiles, SampleProfile(n), PROFILE_KEY);
  }

  /** A commit of sample profile 7, then of the first `n` sample appeals. */
  function AppealCommits(n: nat): seq<Operation> {
    [AddProfile(SampleProfile(7))] + seq(n, i requires 0 <= i < n => AddAppeal(SampleAppeals(i + 1)[i]))
  }

  lemma AppealCommitsGrow(n: nat)
    ensures AppealCommits(n + 1) == AppealCommits(n) + [AddAppeal(SampleAppeals(n + 1)[n])]
    ensures SampleAppeals(n + 1) == SampleAppeals(n) + [SampleAppeals(n + 1)[n]]
  {
  }

  lemma FirstCommit()
    ensures Run(EmptyLedger(SampleWorkOrder()), AppealCommits(0))
         == Ledger(SampleWorkOrder(), [SampleProfile(7)], [], SampleAppeals(0))
  {
    SampleVerifies(7);
    assert CommitProfileOutcome(EmptyLedger(SampleWorkOrder()), SampleProfile(7)) == Committed;
    assert AppealCommits(0) == [AddProfile(SampleProfile(7))] && AppealCommits(0)[1..] == [];
    assert SampleAppeals(0) == [];
  }

  lemma {:induction false} AppealsAreCommitted(n: nat)
    ensures Run(EmptyLedger(SampleWorkOrder()), AppealCommits(n))
         == Ledger(SampleWorkOrder(), [SampleProfile(7)], [], SampleAppeals(n))
  {
    if n == 0 {
      FirstCommit();
    } else {
      AppealsAreCommitted(n - 1);
      AppealCommitsGrow(n - 1);
      RunAppend(EmptyLedger(SampleWorkOrder()), AppealCommits(n - 1), AddAppeal(SampleAppeals(n)[n - 1]));
      NextAppealIsCommitted(n - 1);
    }
  }

  lemma NextAppealIsCommitted(n: nat)
    ensures var before := Ledger(SampleWorkOrder(), [SampleProfile(7)], [], SampleAppeals(n));
      Apply(before, AddAppeal(SampleAppeals(n + 1)[n])) == before.(appeals := SampleAppeals(n) + [SampleAppeals(n + 1)[n]])
  {
    var before := Ledger(SampleWorkOrder(), [SampleProfile(7)], [], SampleAppeals(n));
    var next := SampleAppeals(n + 1)[n];
    SampleAppealVerifies(next);
    assert SampleProfile(7) in before.profiles;
    forall a | a in before.appeals
      ensures a.id < n && a.nonce < n && a.digest < n
    {
    }
    assert CommitAppealOutcome(before, next) == Committed;
    InsertLast(before.appeals, next, APPEAL_KEY);
  }
}
