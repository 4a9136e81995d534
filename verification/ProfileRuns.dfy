/**
 Every interleaving of profile calls, split at their statements. Each statement is one atomic step
 on the table; PUT and DELETE read in one statement and write in another.
 */
module ProfileRuns {
  import opened Common
  import opened Sql
  import opened ProfileModel
  import opened ProfileService
  import Listing = ProfileListing
  import Strings

  type CallId = nat

  /** What a call holds between its read and its write. PUT holds its edited copy, version not yet raised. */
  datatype Pending =
    | Put(user: Uuid, id: Uuid, version: int, copy: Row)
    | Removal(user: Uuid, id: Uuid, version: int, hard: bool)

  /** What never changes about a row. */
  datatype Origin = Origin(owner: Value, createdAt: Value)

  /** A version-checked write that succeeded: the profile, and the version it was made against. */
  datatype Win = Win(id: Uuid, version: int)

  /** `origins`, `tombs` and `wins` record the past; the steps consult them only to draw new ids. */
  datatype State = State(
    table: Rows,
    pending: map<CallId, Pending>,
    origins: map<Uuid, Origin>,
    tombs: set<Uuid>,
    wins: seq<Win>)

  datatype Step =
    | Create(user: Uuid, row: Row)
    | PutLoad(call: CallId, user: Uuid, id: Uuid, version: int, fields: Row)
    | PutStore(call: CallId, now: Time)
    | Patch(user: Uuid, id: Uuid, version: int, fields: Row, now: Time)
    | DeleteLoad(call: CallId, user: Uuid, id: Uuid, version: int, hard: bool)
    | DeleteStore(call: CallId, now: Time)
    | BulkDelete(user: Uuid, ids: seq<Uuid>, hard: bool, now: Time)

  predicate AllEditable(fields: Row) {
    forall c | c in fields :: Editable(c)
  }

  predicate NewProfile(row: Row, user: Uuid) {
    IsProfile(row) && OwnedBy(row, user) && row[Version] == Num(1) && row[DeletedAt] == Null
  }

  predicate Enabled(s: State, step: Step) {
    match step
    case Create(user, row) => NewProfile(row, user) && row[Id].id !in s.origins
    case PutLoad(c, user, id, version, fields) =>
      && c !in s.pending && Visible(s.table, id, user) && VersionOf(s.table[id]) == version
      && AllEditable(fields) && !NullsName(fields)
    case PutStore(c, now) => c in s.pending && s.pending[c].Put? && IsProfile(s.pending[c].copy)
    case Patch(user, id, version, fields, now) => AllEditable(fields) && fields != map[] && !NullsName(fields)
    case DeleteLoad(c, user, id, version, hard) =>
      c !in s.pending && Visible(s.table, id, user) && VersionOf(s.table[id]) == version
    case DeleteStore(c, now) => c in s.pending && s.pending[c].Removal?
    case BulkDelete(user, ids, hard, now) => true
  }

  /** What PUT writes: its copy, with the time and the next version filled in. */
  function Filled(p: Pending, now: Time): Row
    requires p.Put?
  {
    p.copy[Version := Num(p.version + 1)][UpdatedAt := Stamp(now)]
  }

  /** Whether a version-checked write hits its row; PUT's statement does not check the version any more. */
  predicate Hits(s: State, step: Step)
    requires Enabled(s, step)
  {
    match step
    case PutStore(c, _) => var p := s.pending[c]; p.id in s.table && OwnedBy(s.table[p.id], p.user)
    case Patch(user, id, version, _, _) => Guarded(s.table, id, user, version)
    case DeleteStore(c, _) => var p := s.pending[c]; Guarded(s.table, p.id, p.user, p.version)
    case _ => false
  }

  function Target(s: State, step: Step): Win
    requires Enabled(s, step) && Hits(s, step)
  {
    match step
    case Patch(_, id, version, _, _) => Win(id, version)
    case PutStore(c, _) => Win(s.pending[c].id, s.pending[c].version)
    case DeleteStore(c, _) => Win(s.pending[c].id, s.pending[c].version)
  }

  function NextTable(s: State, step: Step): Rows
    requires Enabled(s, step)
  {
    match step
    case Create(_, row) => Insert(s.table, row)
    case PutStore(c, now) => PutRow(s.table, Filled(s.pending[c], now))
    case Patch(user, id, version, fields, now) => PatchRow(s.table, id, user, fields, version, now)
    case DeleteStore(c, now) =>
      var p := s.pending[c]; DeleteRow(s.table, p.id, p.user, p.hard, p.version, now)
    case BulkDelete(user, ids, hard, now) => BulkDeleteRows(s.table, user, ids, hard, now)
    case _ => s.table
  }

  function Exec(s: State, step: Step): State
    requires Enabled(s, step)
  {
    var wins := if Hits(s, step) then s.wins + [Target(s, step)] else s.wins;
    var s' := s.(table := NextTable(s, step), wins := wins);
    match step
    case Create(user, row) => s'.(origins := s.origins[row[Id].id := Origin(row[UserId], row[CreatedAt])])
    case PutLoad(c, user, id, version, fields) =>
      s'.(pending := s.pending[c := Put(user, id, version, s.table[id] + fields)])
    case DeleteLoad(c, user, id, version, hard) =>
      s'.(pending := s.pending[c := Removal(user, id, version, hard)])
    case PutStore(c, _) => s'.(pending := s.pending - {c})
    case DeleteStore(c, _) =>
      s'.(pending := s.pending - {c}, tombs := if Hits(s, step) then s.tombs + {s.pending[c].id} else s.tombs)
    case BulkDelete(user, ids, _, _) => s'.(tombs := s.tombs + Named(s.table, user, ids))
    case Patch(_, _, _, _, _) => s'
  }

  predicate Initial(s: State) {
    s == State(map[], map[], map[], {}, [])
  }

  predicate IsRun(states: seq<State>, steps: seq<Step>) {
    && |states| == |steps| + 1 && Initial(states[0])
    && forall i | 0 <= i < |steps| :: Enabled(states[i], steps[i]) && states[i + 1] == Exec(states[i], steps[i])
  }

  // ---------------------------------------------------------------------------------------------
  // What every statement keeps
  // ---------------------------------------------------------------------------------------------

  predicate RowSound(s: State, id: Uuid)
    requires id in s.table
  {
    var r := s.table[id];
    && IsProfile(r) && r[Id] == Key(id)
    && id in s.origins && r[UserId] == s.origins[id].owner && r[CreatedAt] == s.origins[id].createdAt
    && (id in s.tombs ==> Deleted(r))
  }

  predicate PendingSound(p: Pending) {
    p.Put? ==> IsProfile(p.copy) && p.copy[Id] == Key(p.id) && p.copy[UserId] == Key(p.user)
  }

  predicate Inv(s: State) {
    && (forall id | id in s.table :: RowSound(s, id))
    && (forall c | c in s.pending :: PendingSound(s.pending[c]))
    && (forall id | id in s.tombs :: id in s.origins)
    && (forall i | 0 <= i < |s.wins| :: s.wins[i].id in s.origins)
  }

  /** No statement changes what identifies a row, or undeletes it; and rows only appear by insertion. */
  lemma StepKeepsRow(s: State, step: Step, id: Uuid)
    requires Inv(s) && Enabled(s, step)
    ensures id in s.table && id in NextTable(s, step) ==> Kept(s.table[id], NextTable(s, step)[id])
    ensures id !in s.table && id in NextTable(s, step) ==> step.Create? && id == step.row[Id].id
  {
    if id in s.table {
      assert RowSound(s, id);
      match step
      case Create(_, row) =>
      case PutStore(c, now) => PutKeepsRow(s.table, Filled(s.pending[c], now), id);
      case Patch(user, i, version, fields, now) => PatchKeepsRow(s.table, i, user, fields, version, now, id);
      case DeleteStore(c, now) =>
        var p := s.pending[c];
        DeleteKeepsRow(s.table, p.id, p.user, p.hard, p.version, now, id);
      case BulkDelete(user, ids, hard, now) => BulkDeleteKeepsRow(s.table, user, ids, hard, now, id);
      case _ =>
    }
  }

  lemma RowStaysSound(s: State, step: Step, id: Uuid)
    requires Inv(s) && Enabled(s, step) && id in NextTable(s, step)
    ensures RowSound(Exec(s, step), id)
  {
    StepKeepsRow(s, step, id);
    if id in s.table {
      assert RowSound(s, id);
      if id in Exec(s, step).tombs && id !in s.tombs {
        DeletionMarks(s, step, id);
      }
    }
  }

  /** A statement that puts a row among the tombs leaves it deleted. */
  lemma DeletionMarks(s: State, step: Step, id: Uuid)
    requires Enabled(s, step) && id in s.table && IsProfile(s.table[id]) && id in NextTable(s, step)
    requires id in Exec(s, step).tombs && id !in s.tombs
    ensures Deleted(NextTable(s, step)[id])
  {
  }

  lemma StepKeepsInv(s: State, step: Step)
    requires Inv(s) && Enabled(s, step)
    ensures Inv(Exec(s, step))
  {
    var s' := Exec(s, step);
    forall id | id in s'.table
      ensures RowSound(s', id)
    {
      RowStaysSound(s, step, id);
    }
    forall c | c in s'.pending
      ensures PendingSound(s'.pending[c])
    {
      if c in s.pending {
        assert PendingSound(s.pending[c]);
      }
      if step.PutLoad? && c == step.call {
        assert RowSound(s, step.id);
      }
    }
    assert forall id | id in s.table :: RowSound(s, id);
  }

  lemma {:induction false} RunKeepsInv(states: seq<State>, steps: seq<Step>, i: nat)
    requires IsRun(states, steps) && i < |states|
    ensures Inv(states[i])
  {
    if i > 0 {
      RunKeepsInv(states, steps, i - 1);
      StepKeepsInv(states[i - 1], steps[i - 1]);
    }
  }

  // ---------------------------------------------------------------------------------------------
  // Identity, tombstones and ownership: under every interleaving, stale writes included
  // ---------------------------------------------------------------------------------------------

  lemma {:induction false} PastGrows(states: seq<State>, steps: seq<Step>, i: nat, j: nat)
    requires IsRun(states, steps) && i <= j < |states|
    ensures states[i].tombs <= states[j].tombs && states[i].origins.Keys <= states[j].origins.Keys
    decreases j
  {
    if i < j {
      PastGrows(states, steps, i, j - 1);
      PastGrowsByStep(states[j - 1], steps[j - 1]);
    }
  }

  lemma PastGrowsByStep(s: State, step: Step)
    requires Enabled(s, step)
    ensures s.tombs <= Exec(s, step).tombs && s.origins.Keys <= Exec(s, step).origins.Keys
  {
  }

  /**
   A profile that once existed keeps its id, owner, creation time and deletion for as long as its
   row exists; and once its row is gone it never comes back.
   */
  lemma RowFate(states: seq<State>, steps: seq<Step>, i: nat, j: nat, id: Uuid)
    requires IsRun(states, steps) && i <= j < |states| && id in states[i].origins && id in states[j].table
    ensures id in states[i].table && Kept(states[i].table[id], states[j].table[id])
  {
    forall k | i <= k < j && id in states[k + 1].table
      ensures KeptAt(states[k], states[k + 1], id)
    {
      PastGrows(states, steps, i, k);
      StepFate(states, steps, k, id);
    }
    KeptSelf(states, steps, j, id);
    FateChain(states, i, j, id);
  }

  predicate KeptAt(s: State, s': State, id: Uuid) {
    id in s.table && id in s'.table && Kept(s.table[id], s'.table[id])
  }

  lemma {:induction false} FateChain(states: seq<State>, i: nat, j: nat, id: Uuid)
    requires i <= j < |states| && KeptAt(states[j], states[j], id)
    requires forall k | i <= k < j && id in states[k + 1].table :: KeptAt(states[k], states[k + 1], id)
    ensures KeptAt(states[i], states[j], id)
    decreases j - i
  {
    if i < j {
      FateChain(states, i + 1, j, id);
      KeptTwice(states[i].table[id], states[i + 1].table[id], states[j].table[id]);
    }
  }

  lemma KeptSelf(states: seq<State>, steps: seq<Step>, i: nat, id: Uuid)
    requires IsRun(states, steps) && i < |states| && id in states[i].table
    ensures KeptAt(states[i], states[i], id)
  {
    RunKeepsInv(states, steps, i);
    assert RowSound(states[i], id);
  }

  lemma StepFate(states: seq<State>, steps: seq<Step>, i: nat, id: Uuid)
    requires IsRun(states, steps) && i < |steps| && id in states[i].origins && id in states[i + 1].table
    ensures KeptAt(states[i], states[i + 1], id)
  {
    RunKeepsInv(states, steps, i);
    assert states[i + 1] == Exec(states[i], steps[i]);
    StepKeepsRow(states[i], steps[i], id);
  }

  lemma KeptTwice(r: Row, r': Row, r'': Row)
    requires Kept(r, r') && Kept(r', r'')
    ensures Kept(r, r'')
  {
  }

  lemma TombsStayHidden(states: seq<State>, steps: seq<Step>, i: nat, j: nat, id: Uuid, user: Uuid)
    requires IsRun(states, steps) && i <= j < |states| && id in states[i].tombs
    ensures !Visible(states[j].table, id, user)
  {
    PastGrows(states, steps, i, j);
    RunKeepsInv(states, steps, j);
    if id in states[j].table {
      assert RowSound(states[j], id);
    }
  }

  /** A successful DELETE or bulk DELETE, soft or hard, of this profile. */
  predicate Deletes(s: State, step: Step, id: Uuid)
    requires Enabled(s, step)
  {
    || (step.DeleteStore? && Hits(s, step) && id == s.pending[step.call].id)
    || (step.BulkDelete? && id in Named(s.table, step.user, step.ids))
  }

  lemma DeletionIsRecorded(s: State, step: Step, id: Uuid)
    requires Enabled(s, step) && Deletes(s, step, id)
    ensures id in Exec(s, step).tombs
  {
  }

  /** No read that skips deleted rows finds a profile again once it has been deleted, softly or for good. */
  lemma DeletedStaysHidden(states: seq<State>, steps: seq<Step>, i: nat, j: nat, id: Uuid, user: Uuid)
    requires IsRun(states, steps) && i < |steps| && i < j < |states|
    requires Enabled(states[i], steps[i]) && Deletes(states[i], steps[i], id)
    ensures !Visible(states[j].table, id, user)
  {
    assert states[i + 1] == Exec(states[i], steps[i]);
    DeletionIsRecorded(states[i], steps[i], id);
    TombsStayHidden(states, steps, i + 1, j, id, user);
  }

  /** And no listing of anyone's, with whatever search, cursor, limit and offset, shows it again. */
  lemma DeletedIsNeverListed(
    states: seq<State>, steps: seq<Step>, i: nat, j: nat, id: Uuid,
    db: Listing.Database, req: Listing.Request, page: seq<Row>)
    requires IsRun(states, steps) && i < |steps| && i < j < |states|
    requires Enabled(states[i], steps[i]) && Deletes(states[i], steps[i], id)
    requires db.table == states[j].table && db.Responds(req, page)
    ensures forall r | r in page :: IdOf(r) != id
  {
    DeletedStaysHidden(states, steps, i, j, id, req.user);
    RunKeepsInv(states, steps, j);
    SoundIsWellFormed(states[j]);
    forall r | r in page
      ensures IdOf(r) != id
    {
      Listing.ResponsesAreVisible(db, req, page, r);
    }
  }

  /** The user on whose behalf a step runs. */
  function Actor(s: State, step: Step): Uuid
    requires Enabled(s, step)
  {
    match step
    case PutStore(c, _) => s.pending[c].user
    case DeleteStore(c, _) => s.pending[c].user
    case _ => step.user
  }

  /** No step touches another user's rows. */
  lemma OthersRowsUntouched(s: State, step: Step, id: Uuid)
    requires Inv(s) && Enabled(s, step) && id in s.table && !OwnedBy(s.table[id], Actor(s, step))
    ensures id in NextTable(s, step) && NextTable(s, step)[id] == s.table[id]
  {
    if step.PutStore? {
      assert PendingSound(s.pending[step.call]);
    }
  }

  // ---------------------------------------------------------------------------------------------
  // Versions
  // ---------------------------------------------------------------------------------------------

  /** The successful version-checked writes to `id`. */
  function WinsOf(wins: seq<Win>, id: Uuid): nat {
    if wins == [] then 0
    else WinsOf(wins[..|wins| - 1], id) + if wins[|wins| - 1].id == id then 1 else 0
  }

  /** Every version is one more than the number of successful PUT, PATCH and DELETE calls on the profile. */
  predicate Chained(s: State) {
    forall id | id in s.table :: VersionOf(s.table[id]) == 1 + WinsOf(s.wins, id)
  }

  /** PUT's write hits the version that PUT read. PATCH and DELETE always do: their statements check it. */
  predicate Faithful(s: State, step: Step)
    requires Enabled(s, step)
  {
    step.PutStore? && Hits(s, step) ==> VersionOf(s.table[s.pending[step.call].id]) == s.pending[step.call].version
  }

  lemma {:induction false} NoWinsBeforeCreation(wins: seq<Win>, id: Uuid)
    requires forall i | 0 <= i < |wins| :: wins[i].id != id
    ensures WinsOf(wins, id) == 0
  {
    if wins != [] {
      NoWinsBeforeCreation(wins[..|wins| - 1], id);
    }
  }

  lemma OneMoreWin(wins: seq<Win>, win: Win, id: Uuid)
    ensures WinsOf(wins + [win], id) == WinsOf(wins, id) + if win.id == id then 1 else 0
  {
    assert (wins + [win])[..|wins|] == wins;
  }

  /** What a step does to one row's version. */
  lemma VersionStep(s: State, step: Step, id: Uuid)
    requires Inv(s) && Enabled(s, step) && id in s.table && id in NextTable(s, step)
    ensures var before, after := VersionOf(s.table[id]), VersionOf(NextTable(s, step)[id]);
            if Hits(s, step) && Target(s, step).id == id then after == Target(s, step).version + 1 else after == before
  {
    assert RowSound(s, id);
    if step.PutStore? {
      assert PendingSound(s.pending[step.call]);
    }
    VersionAfter(s, step, id);
  }

  lemma VersionAfter(s: State, step: Step, id: Uuid)
    requires Enabled(s, step) && id in s.table && RowSound(s, id) && id in NextTable(s, step)
    requires step.PutStore? ==> PendingSound(s.pending[step.call])
    ensures var before, after := VersionOf(s.table[id]), VersionOf(NextTable(s, step)[id]);
            if Hits(s, step) && Target(s, step).id == id then after == Target(s, step).version + 1 else after == before
  {
  }

  /** A faithful write that hits, hits the version it was made against. */
  lemma HitsCurrentVersion(s: State, step: Step)
    requires Enabled(s, step) && Faithful(s, step) && Hits(s, step)
    ensures Target(s, step).id in s.table && Target(s, step).version == VersionOf(s.table[Target(s, step).id])
  {
  }

  lemma ExecRecords(s: State, step: Step)
    requires Enabled(s, step)
    ensures Exec(s, step).table == NextTable(s, step)
    ensures Exec(s, step).wins == if Hits(s, step) then s.wins + [Target(s, step)] else s.wins
  {
  }

  lemma WinsAfter(s: State, step: Step, id: Uuid)
    requires Enabled(s, step)
    ensures WinsOf(Exec(s, step).wins, id)
         == WinsOf(s.wins, id) + if Hits(s, step) && Target(s, step).id == id then 1 else 0
  {
    ExecRecords(s, step);
    if Hits(s, step) {
      OneMoreWin(s.wins, Target(s, step), id);
    }
  }

  lemma NewRowIsChained(s: State, step: Step, id: Uuid)
    requires Inv(s) && Enabled(s, step) && id !in s.table && id in NextTable(s, step)
    ensures VersionOf(NextTable(s, step)[id]) == 1 + WinsOf(Exec(s, step).wins, id)
  {
    StepKeepsRow(s, step, id);
    NoWinsBeforeCreation(s.wins, id);
    WinsAfter(s, step, id);
  }

  lemma StepStaysChained(s: State, step: Step)
    requires Inv(s) && Chained(s) && Enabled(s, step) && Faithful(s, step)
    ensures Chained(Exec(s, step))
  {
    ExecRecords(s, step);
    forall id | id in NextTable(s, step)
      ensures VersionOf(NextTable(s, step)[id]) == 1 + WinsOf(Exec(s, step).wins, id)
    {
      if id in s.table {
        VersionStep(s, step, id);
        WinsAfter(s, step, id);
        if Hits(s, step) {
          HitsCurrentVersion(s, step);
        }
      } else {
        NewRowIsChained(s, step, id);
      }
    }
  }

  /** An unfaithful PUT breaks the chain at once. */
  lemma ChainNeedsFaith(s: State, step: Step)
    requires Inv(s) && Chained(s) && Enabled(s, step) && Chained(Exec(s, step))
    ensures Faithful(s, step)
  {
    if step.PutStore? && Hits(s, step) {
      var id := s.pending[step.call].id;
      assert PendingSound(s.pending[step.call]) && RowSound(s, id);
      PutHitsChained(s, step, id);
    }
  }

  lemma PutHitsChained(s: State, step: Step, id: Uuid)
    requires Enabled(s, step) && step.PutStore? && Hits(s, step) && id == s.pending[step.call].id
    requires PendingSound(s.pending[step.call]) && RowSound(s, id) && id in NextTable(s, step)
    requires VersionOf(s.table[id]) == 1 + WinsOf(s.wins, id)
    requires VersionOf(NextTable(s, step)[id]) == 1 + WinsOf(Exec(s, step).wins, id)
    ensures Faithful(s, step)
  {
    VersionAfter(s, step, id);
    WinsAfter(s, step, id);
  }

  lemma {:induction false} FaithfulRunIsChained(states: seq<State>, steps: seq<Step>, i: nat)
    requires IsRun(states, steps) && i < |states|
    requires forall k | 0 <= k < i :: Enabled(states[k], steps[k]) && Faithful(states[k], steps[k])
    ensures Chained(states[i])
  {
    if i > 0 {
      FaithfulRunIsChained(states, steps, i - 1);
      RunKeepsInv(states, steps, i - 1);
      assert states[i] == Exec(states[i - 1], steps[i - 1]);
      StepStaysChained(states[i - 1], steps[i - 1]);
    }
  }

  /**
   In a run all versions equal 1 + the successful writes, throughout, exactly when every PUT write
   finds the version its read found.
   */
  lemma VersionsCountWritesIff(states: seq<State>, steps: seq<Step>)
    requires IsRun(states, steps)
    ensures (forall i | 0 <= i < |states| :: Chained(states[i]))
            <==> (forall i | 0 <= i < |steps| :: Enabled(states[i], steps[i]) && Faithful(states[i], steps[i]))
  {
    if forall i | 0 <= i < |states| :: Chained(states[i]) {
      forall i | 0 <= i < |steps|
        ensures Enabled(states[i], steps[i]) && Faithful(states[i], steps[i])
      {
        RunKeepsInv(states, steps, i);
        assert Enabled(states[i], steps[i]) && states[i + 1] == Exec(states[i], steps[i]);
        ChainNeedsFaith(states[i], steps[i]);
      }
    }
    if forall i | 0 <= i < |steps| :: Enabled(states[i], steps[i]) && Faithful(states[i], steps[i]) {
      forall i | 0 <= i < |states|
        ensures Chained(states[i])
      {
        FaithfulRunIsChained(states, steps, i);
      }
    }
  }

  /** No (profile, version) is won twice, and only versions already left behind have been won. */
  predicate WonOnce(s: State) {
    && (forall i, j | 0 <= i < j < |s.wins| :: s.wins[i] != s.wins[j])
    && (forall i | 0 <= i < |s.wins| && s.wins[i].id in s.table :: s.wins[i].version < VersionOf(s.table[s.wins[i].id]))
  }

  lemma StepStaysWonOnce(s: State, step: Step)
    requires Inv(s) && WonOnce(s) && Enabled(s, step) && Faithful(s, step)
    ensures WonOnce(Exec(s, step))
  {
    ExecRecords(s, step);
    var s' := Exec(s, step);
    if Hits(s, step) {
      HitsCurrentVersion(s, step);
      assert forall i | 0 <= i < |s.wins| :: s.wins[i] != Target(s, step);
    }
    forall i | 0 <= i < |s'.wins| && s'.wins[i].id in s'.table
      ensures s'.wins[i].version < VersionOf(s'.table[s'.wins[i].id])
    {
      var id := s'.wins[i].id;
      StepKeepsRow(s, step, id);
      if id in s.table {
        VersionStep(s, step, id);
      }
    }
  }

  /**
   For each profile and version at most one PUT, PATCH or DELETE ever succeeds, in every run whose
   PUT writes find the version their reads found.
   */
  lemma {:induction false} EachVersionWonOnce(states: seq<State>, steps: seq<Step>, i: nat)
    requires IsRun(states, steps) && i < |states|
    requires forall k | 0 <= k < i :: Enabled(states[k], steps[k]) && Faithful(states[k], steps[k])
    ensures WonOnce(states[i])
  {
    if i > 0 {
      EachVersionWonOnce(states, steps, i - 1);
      RunKeepsInv(states, steps, i - 1);
      assert states[i] == Exec(states[i - 1], steps[i - 1]);
      StepStaysWonOnce(states[i - 1], steps[i - 1]);
    }
  }

  /** Every version below the current one has been won, and no waiting PUT read a later one. */
  predicate Dense(s: State) {
    && (forall id, v | id in s.table && 1 <= v < VersionOf(s.table[id]) :: Win(id, v) in s.wins)
    && (forall id | id in s.table :: 1 <= VersionOf(s.table[id]))
    && (forall c | c in s.pending && s.pending[c].Put? :: WaitsSoundly(s, s.pending[c]))
  }

  predicate WaitsSoundly(s: State, p: Pending) {
    && 1 <= p.version && p.id in s.origins
    && (p.id in s.table ==> p.version <= VersionOf(s.table[p.id]))
  }

  /** What a faithful step does to the wins and to one version. */
  lemma FaithfulVersionStep(s: State, step: Step, id: Uuid)
    requires Inv(s) && Enabled(s, step) && Faithful(s, step) && id in s.table && id in NextTable(s, step)
    ensures var before, after := VersionOf(s.table[id]), VersionOf(NextTable(s, step)[id]);
            after == before || (after == before + 1 && Win(id, before) in Exec(s, step).wins)
    ensures forall w | w in s.wins :: w in Exec(s, step).wins
  {
    VersionStep(s, step, id);
    ExecRecords(s, step);
    if Hits(s, step) {
      HitsCurrentVersion(s, step);
    }
  }

  lemma VersionsStayDense(s: State, step: Step, id: Uuid)
    requires Inv(s) && Dense(s) && Enabled(s, step) && Faithful(s, step) && id in NextTable(s, step)
    ensures 1 <= VersionOf(NextTable(s, step)[id])
    ensures forall v | 1 <= v < VersionOf(NextTable(s, step)[id]) :: Win(id, v) in Exec(s, step).wins
  {
    StepKeepsRow(s, step, id);
    if id in s.table {
      FaithfulVersionStep(s, step, id);
    }
  }

  lemma WaitingStaysSound(s: State, step: Step, p: Pending)
    requires Inv(s) && Enabled(s, step) && Faithful(s, step) && p.Put? && WaitsSoundly(s, p)
    ensures WaitsSoundly(Exec(s, step), p)
  {
    ExecRecords(s, step);
    PastGrowsByStep(s, step);
    if p.id in NextTable(s, step) {
      StepKeepsRow(s, step, p.id);
      if p.id in s.table {
        FaithfulVersionStep(s, step, p.id);
      }
    }
  }

  lemma LoadWaitsSoundly(s: State, step: Step)
    requires Inv(s) && Dense(s) && Enabled(s, step) && step.PutLoad?
    ensures WaitsSoundly(Exec(s, step), Exec(s, step).pending[step.call])
  {
    assert RowSound(s, step.id);
  }

  lemma PendingAfter(s: State, step: Step, c: CallId)
    requires Enabled(s, step) && c in Exec(s, step).pending
    ensures (c in s.pending && Exec(s, step).pending[c] == s.pending[c])
            || (step.PutLoad? && step.call == c) || Exec(s, step).pending[c].Removal?
  {
  }

  lemma StepStaysDense(s: State, step: Step)
    requires Inv(s) && Dense(s) && Enabled(s, step) && Faithful(s, step)
    ensures Dense(Exec(s, step))
  {
    ExecRecords(s, step);
    forall id | id in NextTable(s, step)
      ensures 1 <= VersionOf(NextTable(s, step)[id])
      ensures forall v | 1 <= v < VersionOf(NextTable(s, step)[id]) :: Win(id, v) in Exec(s, step).wins
    {
      VersionsStayDense(s, step, id);
    }
    forall c | c in Exec(s, step).pending && Exec(s, step).pending[c].Put?
      ensures WaitsSoundly(Exec(s, step), Exec(s, step).pending[c])
    {
      PendingAfter(s, step, c);
      if step.PutLoad? && step.call == c {
        LoadWaitsSoundly(s, step);
      } else {
        WaitingStaysSound(s, step, s.pending[c]);
      }
    }
  }

  lemma {:induction false} FaithfulRunIsDense(states: seq<State>, steps: seq<Step>, i: nat)
    requires IsRun(states, steps) && i < |states|
    requires forall k | 0 <= k < i :: Enabled(states[k], steps[k]) && Faithful(states[k], steps[k])
    ensures Dense(states[i])
  {
    if i > 0 {
      FaithfulRunIsDense(states, steps, i - 1);
      RunKeepsInv(states, steps, i - 1);
      assert states[i] == Exec(states[i - 1], steps[i - 1]);
      StepStaysDense(states[i - 1], steps[i - 1]);
    }
  }

  predicate NoneWonTwice(s: State) {
    forall i, j | 0 <= i < j < |s.wins| :: s.wins[i] != s.wins[j]
  }

  /** An unfaithful PUT wins a version that was won before. */
  lemma UnfaithfulWinsAgain(s: State, step: Step)
    requires Dense(s) && Enabled(s, step) && !Faithful(s, step)
    ensures !NoneWonTwice(Exec(s, step))
  {
    ExecRecords(s, step);
    var p := s.pending[step.call];
    assert WaitsSoundly(s, p);
    var win := Target(s, step);
    assert win == Win(p.id, p.version) && win in s.wins;
    var i :| 0 <= i < |s.wins| && s.wins[i] == win;
    assert Exec(s, step).wins[i] == Exec(s, step).wins[|s.wins|];
  }

  lemma {:induction false} NoneWonTwiceNeedsFaith(states: seq<State>, steps: seq<Step>, i: nat)
    requires IsRun(states, steps) && i <= |steps| && forall k | 0 <= k < |states| :: NoneWonTwice(states[k])
    ensures forall k | 0 <= k < i :: Enabled(states[k], steps[k]) && Faithful(states[k], steps[k])
  {
    if i > 0 {
      NoneWonTwiceNeedsFaith(states, steps, i - 1);
      FaithfulRunIsDense(states, steps, i - 1);
      assert Enabled(states[i - 1], steps[i - 1]) && states[i] == Exec(states[i - 1], steps[i - 1]);
      assert NoneWonTwice(states[i]);
      if !Faithful(states[i - 1], steps[i - 1]) {
        UnfaithfulWinsAgain(states[i - 1], steps[i - 1]);
      }
    }
  }

  /**
   For each profile and version at most one PUT, PATCH or DELETE ever succeeds in a run, exactly when
   every PUT write of the run finds the version its read found.
   */
  lemma EachVersionWonOnceIff(states: seq<State>, steps: seq<Step>)
    requires IsRun(states, steps)
    ensures (forall i | 0 <= i < |states| :: NoneWonTwice(states[i]))
            <==> (forall i | 0 <= i < |steps| :: Enabled(states[i], steps[i]) && Faithful(states[i], steps[i]))
  {
    if forall i | 0 <= i < |states| :: NoneWonTwice(states[i]) {
      NoneWonTwiceNeedsFaith(states, steps, |steps|);
    }
    if forall i | 0 <= i < |steps| :: Enabled(states[i], steps[i]) && Faithful(states[i], steps[i]) {
      forall i | 0 <= i < |states|
        ensures NoneWonTwice(states[i])
      {
        EachVersionWonOnce(states, steps, i);
      }
    }
  }

  /** PUT runs as a whole call: every PUT write directly follows the read of the same call. */
  predicate WholePuts(steps: seq<Step>) {
    forall i | 0 <= i < |steps| && steps[i].PutStore? ::
      i > 0 && steps[i - 1].PutLoad? && steps[i - 1].call == steps[i].call
  }

  /**
   Runs whose PUTs are whole calls, and so runs without PUT, are of that kind, however PATCH, DELETE
   and bulk deletion interleave: versions count the writes, and no version is won twice.
   */
  lemma WholePutsNeverWinTwice(states: seq<State>, steps: seq<Step>)
    requires IsRun(states, steps) && WholePuts(steps)
    ensures forall i | 0 <= i < |states| :: Chained(states[i]) && NoneWonTwice(states[i])
  {
    forall i | 0 <= i < |steps|
      ensures Enabled(states[i], steps[i]) && Faithful(states[i], steps[i])
    {
      assert Enabled(states[i], steps[i]);
      if steps[i].PutStore? {
        WholePutRunIsFaithful(states, steps, i);
      }
    }
    VersionsCountWritesIff(states, steps);
    EachVersionWonOnceIff(states, steps);
  }

  lemma WholePutRunIsFaithful(states: seq<State>, steps: seq<Step>, i: nat)
    requires IsRun(states, steps) && WholePuts(steps) && i < |steps| && steps[i].PutStore?
    ensures Enabled(states[i], steps[i]) && Faithful(states[i], steps[i])
  {
    var s, load, store := states[i - 1], steps[i - 1], steps[i];
    assert Enabled(s, load) && states[i] == Exec(s, load);
    RunKeepsInv(states, steps, i - 1);
    WholePutIsFaithful(s, load.call, load.user, load.id, load.version, load.fields, store.now);
  }

  /** PUT as a whole call is faithful: its write directly follows its read. */
  lemma WholePutIsFaithful(s: State, c: CallId, user: Uuid, id: Uuid, version: int, fields: Row, now: Time)
    requires Inv(s) && Enabled(s, PutLoad(c, user, id, version, fields))
    ensures var loaded := Exec(s, PutLoad(c, user, id, version, fields));
            Enabled(loaded, PutStore(c, now)) && Hits(loaded, PutStore(c, now)) && Faithful(loaded, PutStore(c, now))
  {
    assert RowSound(s, id);
    StepKeepsInv(s, PutLoad(c, user, id, version, fields));
  }

  /** And it does to the table what the service's PUT does. */
  lemma WholePutIsServicePut(
    libs: Libraries, s: State, c: CallId, user: Uuid, id: Uuid, version: int, req: CreateRequest, now: Time)
    requires Inv(s) && !libs.BadDate(req)
    requires Enabled(s, PutLoad(c, user, id, version, libs.Names(req) + libs.Optional(req)))
    ensures var loaded := Exec(s, PutLoad(c, user, id, version, libs.Names(req) + libs.Optional(req)));
            && Enabled(loaded, PutStore(c, now))
            && Exec(loaded, PutStore(c, now)).table == s.table[id := libs.Edited(s.table[id], req, version, now)]
  {
    WholePutIsFaithful(s, c, user, id, version, libs.Names(req) + libs.Optional(req), now);
    SoundIsWellFormed(s);
    FilledIsEdited(libs, s.table[id], user, id, version, req, now);
    EditedPut(libs, s.table, id, user, req, version, now);
  }

  lemma SoundIsWellFormed(s: State)
    requires Inv(s)
    ensures WellFormed(s.table)
  {
    assert forall k | k in s.table :: RowSound(s, k);
  }

  lemma FilledIsEdited(libs: Libraries, r: Row, user: Uuid, id: Uuid, version: int, req: CreateRequest, now: Time)
    requires !libs.BadDate(req)
    ensures Filled(Put(user, id, version, r + (libs.Names(req) + libs.Optional(req))), now)
         == libs.Edited(r, req, version, now)
  {
    assert r + (libs.Names(req) + libs.Optional(req)) == r + libs.Names(req) + libs.Optional(req);
  }

  lemma PatchWins(s: State, user: Uuid, id: Uuid, version: int, fields: Row, now: Time)
    requires Enabled(s, Patch(user, id, version, fields, now)) && Guarded(s.table, id, user, version)
    ensures var s' := Exec(s, Patch(user, id, version, fields, now));
            && s'.pending == s.pending && s'.wins == s.wins + [Win(id, version)]
            && Guarded(s'.table, id, user, version + 1)
  {
  }

  lemma PutLoadHolds(s: State, c: CallId, user: Uuid, id: Uuid, version: int, edits: Row)
    requires Enabled(s, PutLoad(c, user, id, version, edits)) && RowSound(s, id)
    ensures var s' := Exec(s, PutLoad(c, user, id, version, edits));
            && Guarded(s'.table, id, user, version) && s'.wins == s.wins
            && PutWaits(s', c, user, id, version)
  {
  }

  predicate PutWaits(s: State, c: CallId, user: Uuid, id: Uuid, version: int) {
    c in s.pending && s.pending[c].Put? && PendingSound(s.pending[c])
    && s.pending[c].user == user && s.pending[c].id == id && s.pending[c].version == version
  }

  lemma LatePut(s: State, c: CallId, user: Uuid, id: Uuid, version: int, now: Time)
    requires PutWaits(s, c, user, id, version) && id in s.table && OwnedBy(s.table[id], user)
    ensures Enabled(s, PutStore(c, now))
    ensures var s' := Exec(s, PutStore(c, now));
            Guarded(s'.table, id, user, version + 1) && s'.wins == s.wins + [Win(id, version)]
  {
  }

  /**
   A PUT whose write comes late takes the version back: with two PATCHes between its read and its
   write, version v+1 is current a second time, and is won a second time.
   */
  lemma StalePutWinsTwice(s: State, c: CallId, user: Uuid, id: Uuid, version: int, edits: Row, fields: Row, now: Time)
    requires Enabled(s, PutLoad(c, user, id, version, edits)) && RowSound(s, id)
    requires AllEditable(fields) && fields != map[] && !NullsName(fields)
    ensures var s1 := Exec(s, PutLoad(c, user, id, version, edits));
            var s2 := Exec(s1, Patch(user, id, version, fields, now));
            var s3 := Exec(s2, Patch(user, id, version + 1, fields, now));
            && Guarded(s3.table, id, user, version + 2) && Enabled(s3, PutStore(c, now))
            && var s4 := Exec(s3, PutStore(c, now));
            var s5 := Exec(s4, Patch(user, id, version + 1, fields, now));
            && Guarded(s4.table, id, user, version + 1)
            && s5.wins
               == s.wins + [Win(id, version)] + [Win(id, version + 1)] + [Win(id, version)] + [Win(id, version + 1)]
  {
    PutLoadHolds(s, c, user, id, version, edits);
    var s1 := Exec(s, PutLoad(c, user, id, version, edits));
    PatchWins(s1, user, id, version, fields, now);
    var s2 := Exec(s1, Patch(user, id, version, fields, now));
    PatchWins(s2, user, id, version + 1, fields, now);
    var s3 := Exec(s2, Patch(user, id, version + 1, fields, now));
    LatePut(s3, c, user, id, version, now);
    var s4 := Exec(s3, PutStore(c, now));
    PatchWins(s4, user, id, version + 1, fields, now);
  }

  // ---------------------------------------------------------------------------------------------
  // Stored texts
  // ---------------------------------------------------------------------------------------------

  /** The columns whose texts are sanitised whichever call writes them. */
  predicate IsSanitised(c: Column) {
    c == FirstName || c == LastName || c == Bio || c == Phone || c == Location
  }

  /** A text that came out of the sanitiser and was trimmed then. */
  ghost predicate IsClean(libs: Libraries, v: Value) {
    v.Text? ==> exists raw :: v.text == Strings.Trim(libs.policy(raw))
  }

  ghost predicate CleanRow(libs: Libraries, r: Row) {
    && (forall c | IsSanitised(c) :: IsClean(libs, Cell(r, c)))
    && Cell(r, FirstName) != Null && Cell(r, LastName) != Null
  }

  ghost predicate CleanState(libs: Libraries, s: State) {
    && (forall id | id in s.table :: CleanRow(libs, s.table[id]))
    && (forall c | c in s.pending && s.pending[c].Put? :: CleanRow(libs, s.pending[c].copy))
  }

  /** The step carries what the service makes of some client's request. */
  ghost predicate IsServed(libs: Libraries, step: Step) {
    match step
    case Create(user, row) =>
      exists id, req, now :: DateReads(libs, req) && row == libs.Made(id, user, req, now)
    case PutLoad(_, _, _, _, fields) =>
      exists req :: DateReads(libs, req) && fields == libs.Names(req) + libs.Optional(req)
    case Patch(_, _, _, fields, _) => exists raw :: fields == libs.Whitelisted(raw)
    case _ => true
  }

  /** What is written over a clean row is clean, if it makes no name NULL. */
  ghost predicate CleanUpdate(libs: Libraries, fields: Row) {
    (forall c | IsSanitised(c) && c in fields :: IsClean(libs, fields[c])) && !NullsName(fields)
  }

  lemma UpdateStaysClean(libs: Libraries, r: Row, fields: Row)
    requires CleanRow(libs, r) && CleanUpdate(libs, fields)
    ensures CleanRow(libs, r + fields)
  {
    forall c | IsSanitised(c)
      ensures IsClean(libs, Cell(r + fields, c))
    {
      assert Cell(r + fields, c) == if c in fields then fields[c] else Cell(r, c);
    }
  }

  lemma RequestedIsClean(libs: Libraries, req: CreateRequest, c: Column, otherwise: Value)
    requires IsSanitised(c) && IsClean(libs, otherwise)
    ensures IsClean(libs, RequestedCell(libs, req, c, otherwise))
  {
  }

  lemma RequestIsClean(libs: Libraries, req: CreateRequest)
    requires DateReads(libs, req)
    ensures CleanUpdate(libs, libs.Names(req) + libs.Optional(req))
  {
    var fields := libs.Names(req) + libs.Optional(req);
    forall c | IsSanitised(c) && c in fields
      ensures IsClean(libs, fields[c])
    {
      RequestSetsCell(libs, map[c := Null], req, c);
      RequestedIsClean(libs, req, c, Null);
      assert fields[c] == (map[c := Null] + libs.Names(req) + libs.Optional(req))[c];
    }
  }

  lemma CreatedIsClean(libs: Libraries, id: Uuid, user: Uuid, req: CreateRequest, now: Time, p: Row)
    requires CreatedAs(libs, id, user, req, now, p)
    ensures CleanRow(libs, p)
  {
    forall c | IsSanitised(c)
      ensures IsClean(libs, Cell(p, c))
    {
      RequestedIsClean(libs, req, c, Null);
      assert p[c] == CreatedCell(libs, id, user, req, now, c);
    }
    assert p[FirstName] == CreatedCell(libs, id, user, req, now, FirstName);
    assert p[LastName] == CreatedCell(libs, id, user, req, now, LastName);
  }

  lemma WhitelistedIsClean(libs: Libraries, raw: map<FieldName, Value>)
    requires !NullsName(libs.Whitelisted(raw))
    ensures CleanUpdate(libs, libs.Whitelisted(raw))
  {
    forall c | IsSanitised(c) && c in libs.Whitelisted(raw)
      ensures IsClean(libs, libs.Whitelisted(raw)[c])
    {
      WhitelistedCell(libs, raw, c);
    }
  }

  /** Two rows agree on these columns. */
  predicate SameTexts(r: Row, r': Row) {
    forall c | IsSanitised(c) :: Cell(r', c) == Cell(r, c)
  }

  lemma SameTextsClean(libs: Libraries, r: Row, r': Row)
    requires CleanRow(libs, r) && SameTexts(r, r')
    ensures CleanRow(libs, r')
  {
  }

  lemma CreateStaysClean(libs: Libraries, s: State, step: Step, id: Uuid)
    requires Enabled(s, step) && step.Create? && IsServed(libs, step) && id in NextTable(s, step)
    requires id in s.table ==> CleanRow(libs, s.table[id])
    ensures CleanRow(libs, NextTable(s, step)[id])
  {
    var at, req, now :| DateReads(libs, req) && step.row == libs.Made(at, step.user, req, now);
    MadeIsCreated(libs, at, step.user, req, now);
    CreatedIsClean(libs, at, step.user, req, now, step.row);
  }

  /** What PATCH and PUT leave in these columns. */
  lemma PatchedTexts(s: State, step: Step, id: Uuid)
    requires Enabled(s, step) && step.Patch? && id in s.table
    ensures id in NextTable(s, step)
    ensures SameTexts(s.table[id], NextTable(s, step)[id])
            || SameTexts(s.table[id] + step.fields, NextTable(s, step)[id])
  {
    UpdateTexts(s.table[id], step.fields, step.version, step.now);
  }

  lemma UpdateTexts(r: Row, fields: Row, version: int, now: Time)
    ensures SameTexts(r + fields, r + fields + map[UpdatedAt := Stamp(now), Version := Num(version + 1)])
  {
  }

  lemma PutTexts(s: State, step: Step, id: Uuid)
    requires Enabled(s, step) && step.PutStore? && id in s.table
    ensures id in NextTable(s, step)
    ensures SameTexts(s.table[id], NextTable(s, step)[id])
            || SameTexts(s.pending[step.call].copy, NextTable(s, step)[id])
  {
    EditsTexts(s.table[id], s.pending[step.call].copy, Filled(s.pending[step.call], step.now));
  }

  lemma EditsTexts(r: Row, copy: Row, p: Row)
    requires IsProfile(p) && SameTexts(copy, p)
    ensures SameTexts(copy, r + Edits(p))
  {
  }

  lemma OtherTexts(s: State, step: Step, id: Uuid)
    requires Enabled(s, step) && !step.Create? && !step.Patch? && !step.PutStore? && id in NextTable(s, step)
    ensures id in s.table && SameTexts(s.table[id], NextTable(s, step)[id])
  {
  }

  lemma RowStaysClean(libs: Libraries, s: State, step: Step, id: Uuid)
    requires Enabled(s, step) && IsServed(libs, step) && id in NextTable(s, step)
    requires id in s.table ==> CleanRow(libs, s.table[id])
    requires step.PutStore? ==> CleanRow(libs, s.pending[step.call].copy)
    ensures CleanRow(libs, NextTable(s, step)[id])
  {
    var r' := NextTable(s, step)[id];
    match step
    case Create(_, _) => CreateStaysClean(libs, s, step, id);
    case PutStore(c, _) =>
      PutTexts(s, step, id);
      SameTextsClean(libs, if SameTexts(s.table[id], r') then s.table[id] else s.pending[c].copy, r');
    case Patch(_, _, _, fields, _) =>
      PatchedTexts(s, step, id);
      var raw :| fields == libs.Whitelisted(raw);
      WhitelistedIsClean(libs, raw);
      UpdateStaysClean(libs, s.table[id], fields);
      SameTextsClean(libs, if SameTexts(s.table[id], r') then s.table[id] else s.table[id] + fields, r');
    case _ =>
      OtherTexts(s, step, id);
      SameTextsClean(libs, s.table[id], r');
  }

  lemma StepStaysClean(libs: Libraries, s: State, step: Step)
    requires Enabled(s, step) && IsServed(libs, step) && CleanState(libs, s)
    ensures CleanState(libs, Exec(s, step))
  {
    ExecRecords(s, step);
    forall id | id in NextTable(s, step)
      ensures CleanRow(libs, NextTable(s, step)[id])
    {
      RowStaysClean(libs, s, step, id);
    }
    forall c | c in Exec(s, step).pending && Exec(s, step).pending[c].Put?
      ensures CleanRow(libs, Exec(s, step).pending[c].copy)
    {
      PendingAfter(s, step, c);
      if step.PutLoad? && step.call == c {
        var req :| DateReads(libs, req) && step.fields == libs.Names(req) + libs.Optional(req);
        RequestIsClean(libs, req);
        UpdateStaysClean(libs, s.table[step.id], step.fields);
      }
    }
  }

  /**
   Whatever clients send, and however their calls interleave, every stored name, biography, phone
   and location that is a text came out of the sanitiser and was trimmed, and no name is NULL.
   */
  lemma {:induction false} TextsStayClean(libs: Libraries, states: seq<State>, steps: seq<Step>, i: nat)
    requires IsRun(states, steps) && i < |states| && forall k | 0 <= k < i :: IsServed(libs, steps[k])
    ensures CleanState(libs, states[i])
  {
    if i > 0 {
      TextsStayClean(libs, states, steps, i - 1);
      assert Enabled(states[i - 1], steps[i - 1]) && states[i] == Exec(states[i - 1], steps[i - 1]);
      StepStaysClean(libs, states[i - 1], steps[i - 1]);
    }
  }
}
