/**
  Refresh-token rotation as the database sees it.

  A token's hash is its row number and a family id is a number never used before; rows are never
  deleted.  Every `await` of a refresh request that another request can overtake is a step of its
  own: validation, the lookup inside the rotation, the commit (claim and successor together), and
  the wallet-wide revocation that answers a replay.
 */
module RefreshTokens {
  import opened Options

  const MAX_REFRESH_FAMILY_DEPTH: nat := 100
  const REFRESH_TOKEN_EXPIRY_MS: nat := 7 * 24 * 60 * 60 * 1000

  type Wallet = string

  datatype Token = Token(
    wallet: Wallet,
    family: nat,
    depth: nat,
    expiresAt: int,
    used: bool,
    revoked: bool)

  datatype Database = Database(rows: seq<Token>, families: nat, now: int)

  datatype Rotation =
    | Issued(successor: nat)
    | Replay(wallet: Wallet)
    | Invalid
    | DepthExceeded

  // ---------------------------------------------------------------- single database statements

  function Insert(db: Database, wallet: Wallet, family: nat, depth: nat): Database {
    db.(rows := db.rows + [Token(wallet, family, depth, db.now + REFRESH_TOKEN_EXPIRY_MS, false, false)])
  }

  function RevokeIf(rows: seq<Token>, hit: Token -> bool): (r: seq<Token>)
    ensures |r| == |rows|
  {
    seq(|rows|, i requires 0 <= i < |rows| => if hit(rows[i]) then rows[i].(revoked := true) else rows[i])
  }

  function RevokeFamily(rows: seq<Token>, family: nat): (r: seq<Token>)
    ensures |r| == |rows|
    ensures forall i | 0 <= i < |rows| ::
              r[i] == if rows[i].family == family then rows[i].(revoked := true) else rows[i]
  {
    RevokeIf(rows, (t: Token) => t.family == family)
  }

  function Generate(db: Database, wallet: Wallet): Database {
    Insert(db, wallet, db.families, 0).(families := db.families + 1)
  }

  predicate Validates(db: Database, id: nat) {
    id < |db.rows| && db.rows[id].expiresAt > db.now && !db.rows[id].revoked
  }

  /** What the lookup of a rotation already settles: `None` means it goes on to its commit. */
  function Verdict(db: Database, id: nat): Option<Rotation> {
    if id >= |db.rows| then Some(Invalid)
    else if db.rows[id].used then Some(Replay(db.rows[id].wallet))
    else if db.rows[id].revoked || db.rows[id].expiresAt <= db.now then Some(Invalid)
    else None
  }

  /** The commit for the row `existing` that the lookup saw under `id`. */
  function Commit(db: Database, id: nat, existing: Token, wallet: Wallet): (Database, Rotation)
    requires id < |db.rows|
  {
    if existing.depth >= MAX_REFRESH_FAMILY_DEPTH then
      (db.(rows := RevokeFamily(db.rows, existing.family)), DepthExceeded)
    else if db.rows[id].used || db.rows[id].revoked then
      (db, Replay(existing.wallet))
    else
      (Insert(db.(rows := db.rows[id := db.rows[id].(used := true)]), wallet, existing.family, existing.depth + 1),
       Issued(|db.rows|))
  }

  function RevokeWallet(db: Database, wallet: Wallet): Database {
    db.(rows := RevokeIf(db.rows, (t: Token) => t.wallet == wallet))
  }

  function RevokeOne(db: Database, id: nat): Database {
    if id < |db.rows| then db.(rows := db.rows[id := db.rows[id].(revoked := true)]) else db
  }

  // ---------------------------------------------------------------- the service

  class RefreshTokenService {
    var rows: seq<Token>
    var families: nat
    var now: int

    constructor (now: int)
      ensures Db() == Database([], 0, now)
    {
      rows, families, this.now := [], 0, now;
    }

    function Db(): Database
      reads this
    {
      Database(rows, families, now)
    }

    method IssueToken(wallet: Wallet, family: nat, depth: nat) returns (id: nat)
      modifies `rows
      ensures Db() == Insert(old(Db()), wallet, family, depth) && id == old(|rows|)
    {
      id := |rows|;
      rows := rows + [Token(wallet, family, depth, now + REFRESH_TOKEN_EXPIRY_MS, false, false)];
    }

    method GenerateRefreshToken(wallet: Wallet) returns (id: nat)
      modifies this
      ensures Db() == Generate(old(Db()), wallet) && id == old(|rows|)
      ensures rows == old(rows) + [Token(wallet, old(families), 0, now + REFRESH_TOKEN_EXPIRY_MS, false, false)]
      ensures families == old(families) + 1 && now == old(now)
    {
      var family := families;
      families := families + 1;
      id := IssueToken(wallet, family, 0);
    }

    method ValidateRefreshToken(id: nat) returns (wallet: Option<Wallet>)
      ensures wallet.Some? <==> id < |rows| && rows[id].expiresAt > now && !rows[id].revoked
      ensures wallet.Some? ==> wallet.value == rows[id].wallet
      ensures wallet.Some? <==> Validates(Db(), id)
    {
      if id < |rows| && rows[id].expiresAt > now && !rows[id].revoked {
        return Some(rows[id].wallet);
      }
      return None;
    }

    /** The lookup half of a rotation. */
    method LookUp(id: nat) returns (verdict: Option<Rotation>)
      ensures verdict == Verdict(Db(), id)
      ensures verdict.Some? && verdict.value.Replay? <==> id < |rows| && rows[id].used
      ensures verdict == None <==> id < |rows| && !rows[id].used && !rows[id].revoked && rows[id].expiresAt > now
    {
      if id >= |rows| {
        return Some(Invalid);
      }
      var existing := rows[id];
      if existing.used {
        return Some(Replay(existing.wallet));
      }
      if existing.revoked || existing.expiresAt <= now {
        return Some(Invalid);
      }
      return None;
    }

    /** The writing half: the depth cut-off, or the atomic claim with its successor. */
    method ClaimAndIssue(id: nat, existing: Token, wallet: Wallet) returns (outcome: Rotation)
      requires id < |rows|
      modifies `rows
      ensures (Db(), outcome) == Commit(old(Db()), id, existing, wallet)
    {
      if existing.depth >= MAX_REFRESH_FAMILY_DEPTH {
        rows := RevokeFamily(rows, existing.family);
        return DepthExceeded;
      }
      if rows[id].used || rows[id].revoked {
        return Replay(existing.wallet);
      }
      rows := rows[id := rows[id].(used := true)];
      var issued := IssueToken(wallet, existing.family, existing.depth + 1);
      outcome := Issued(issued);
    }

    method RevokeAllRefreshTokens(wallet: Wallet)
      modifies `rows
      ensures Db() == RevokeWallet(old(Db()), wallet)
      ensures |rows| == old(|rows|)
      ensures forall i | 0 <= i < |rows| ::
                rows[i] == if old(rows)[i].wallet == wallet then old(rows)[i].(revoked := true) else old(rows)[i]
    {
      rows := RevokeIf(rows, (t: Token) => t.wallet == wallet);
    }

    method RevokeRefreshToken(id: nat)
      modifies `rows
      ensures Db() == RevokeOne(old(Db()), id)
      ensures |rows| == old(|rows|)
      ensures forall i | 0 <= i < |rows| :: rows[i] == if i == id then old(rows)[i].(revoked := true) else old(rows)[i]
    {
      if id < |rows| {
        rows := rows[id := rows[id].(revoked := true)];
      }
    }

    /**
      An undisturbed rotation: it succeeds exactly on an unused, unrevoked, unexpired token below
      the depth limit, and then that token is spent and its successor is the only new row; a spent
      token costs the wallet every token it has.
     */
    method RotateRefreshToken(id: nat, wallet: Wallet) returns (outcome: Rotation)
      modifies `rows
      ensures outcome.Issued? <==>
                && id < old(|rows|)
                && !old(rows)[id].used && !old(rows)[id].revoked && old(rows)[id].expiresAt > now
                && old(rows)[id].depth < MAX_REFRESH_FAMILY_DEPTH
      ensures outcome.Issued? ==>
                && outcome.successor == |rows| - 1 == old(|rows|)
                && rows[..old(|rows|)] == old(rows)[id := old(rows)[id].(used := true)]
                && rows[outcome.successor] == Token(wallet, old(rows)[id].family, old(rows)[id].depth + 1,
                                                    now + REFRESH_TOKEN_EXPIRY_MS, false, false)
      ensures outcome.Replay? <==> id < old(|rows|) && old(rows)[id].used
      ensures outcome.Replay? ==>
                && Db() == RevokeWallet(old(Db()), old(rows)[id].wallet)
                && |rows| == old(|rows|)
                && forall i | 0 <= i < |rows| ::
                     rows[i] == if old(rows)[i].wallet == old(rows)[id].wallet
                                then old(rows)[i].(revoked := true) else old(rows)[i]
      ensures outcome.DepthExceeded? ==>
                && id < old(|rows|) && old(rows)[id].depth >= MAX_REFRESH_FAMILY_DEPTH
                && |rows| == old(|rows|)
                && forall i | 0 <= i < |rows| ::
                     rows[i] == if old(rows)[i].family == old(rows)[id].family
                                then old(rows)[i].(revoked := true) else old(rows)[i]
      ensures outcome.Invalid? ==> rows == old(rows)
    {
      var verdict := LookUp(id);
      if verdict == None {
        outcome := ClaimAndIssue(id, rows[id], wallet);
      } else {
        outcome := verdict.value;
      }
      if outcome.Replay? {
        RevokeAllRefreshTokens(outcome.wallet);
      }
    }
  }

  // ---------------------------------------------------------------- interleavings

  /** Where a refresh request stands between two of its steps. */
  datatype Request =
    | Validated(id: nat, wallet: Wallet)
    | LookedUp(id: nat, wallet: Wallet, existing: Token)
    | Replayed(wallet: Wallet)
    | Finished

  datatype System = System(db: Database, requests: seq<Request>)

  /** Steps name a request by its number `h`. */
  datatype Step =
    | Login(wallet: Wallet)
    | Refresh(id: nat)
    | Look(h: nat)
    | Write(h: nat)
    | Punish(h: nat)
    | Abort(h: nat)
    | Logout(id: nat)
    | Tick(ms: nat)

  /** A rotation either owes its wallet a revocation or is done. */
  function AfterRotation(outcome: Rotation): Request {
    if outcome.Replay? then Replayed(outcome.wallet) else Finished
  }

  function Next(s: System, step: Step): System {
    match step
    case Login(wallet) => s.(db := Generate(s.db, wallet))
    case Refresh(id) =>
      if Validates(s.db, id)
      then s.(requests := s.requests + [Validated(id, s.db.rows[id].wallet)])
      else s
    case Look(h) =>
      if h >= |s.requests| || !s.requests[h].Validated? then s else
      var r := s.requests[h];
      (match Verdict(s.db, r.id)
       case Some(outcome) => s.(requests := s.requests[h := AfterRotation(outcome)])
       case None => s.(requests := s.requests[h := LookedUp(r.id, r.wallet, s.db.rows[r.id])]))
    case Write(h) =>
      if h >= |s.requests| || !s.requests[h].LookedUp? || s.requests[h].id >= |s.db.rows| then s else
      var r := s.requests[h];
      var (db, outcome) := Commit(s.db, r.id, r.existing, r.wallet);
      System(db, s.requests[h := AfterRotation(outcome)])
    case Punish(h) =>
      if h >= |s.requests| || !s.requests[h].Replayed? then s else
      System(RevokeWallet(s.db, s.requests[h].wallet), s.requests[h := Finished])
    case Abort(h) => if h >= |s.requests| then s else s.(requests := s.requests[h := Finished])
    case Logout(id) => s.(db := RevokeOne(s.db, id))
    case Tick(ms) => s.(db := s.db.(now := s.db.now + ms))
  }

  function Start(now: int): System {
    System(Database([], 0, now), [])
  }

  function Run(s: System, steps: seq<Step>): System
    decreases |steps|
  {
    if steps == [] then s else Next(Run(s, steps[..|steps| - 1]), steps[|steps| - 1])
  }

  // ---------------------------------------------------------------- every family is a chain

  ghost predicate SameFamily(rows: seq<Token>, i: int, j: int) {
    0 <= i < |rows| && 0 <= j < |rows| && rows[i].family == rows[j].family
  }

  /** Every token but a root comes from a token of its family one level up. */
  ghost predicate HasParent(rows: seq<Token>, i: int)
    requires 0 <= i < |rows|
  {
    rows[i].depth > 0 ==> exists j :: SameFamily(rows, i, j) && rows[j].depth == rows[i].depth - 1
  }

  /** A token is spent in the commit that issues the next of its family. */
  ghost predicate HasChild(rows: seq<Token>, i: int)
    requires 0 <= i < |rows|
  {
    rows[i].used ==> exists j :: SameFamily(rows, i, j) && rows[j].depth == rows[i].depth + 1
  }

  ghost predicate Linked(rows: seq<Token>) {
    forall i | 0 <= i < |rows| :: HasChild(rows, i)
  }

  ghost predicate Chains(rows: seq<Token>) {
    && (forall i, j | SameFamily(rows, i, j) :: rows[i].wallet == rows[j].wallet)
    && (forall i, j | SameFamily(rows, i, j) && rows[i].depth == rows[j].depth :: i == j)
    && (forall i, j | SameFamily(rows, i, j) && rows[i].depth < rows[j].depth :: rows[i].used)
    && (forall i | 0 <= i < |rows| :: HasParent(rows, i))
    && (forall i | 0 <= i < |rows| :: rows[i].depth <= MAX_REFRESH_FAMILY_DEPTH)
  }

  /** A request in flight remembers what cannot change of its row, and that its lookup found the row usable. */
  ghost predicate RequestFits(db: Database, r: Request) {
    match r
    case Validated(id, wallet) => id < |db.rows| && db.rows[id].wallet == wallet
    case LookedUp(id, wallet, existing) =>
      && id < |db.rows| && db.rows[id].wallet == wallet == existing.wallet
      && db.rows[id].family == existing.family && db.rows[id].depth == existing.depth
      && !existing.used && !existing.revoked
    case Replayed(_) => true
    case Finished => true
  }

  ghost predicate Invariant(s: System) {
    && Chains(s.db.rows) && Linked(s.db.rows)
    && (forall i | 0 <= i < |s.db.rows| :: s.db.rows[i].family < s.db.families)
    && (forall h | 0 <= h < |s.requests| :: RequestFits(s.db, s.requests[h]))
  }

  /** A row keeps its identity and only ever loses rights. */
  ghost predicate Outlives(before: Token, after: Token) {
    && after.wallet == before.wallet && after.family == before.family
    && after.depth == before.depth && after.expiresAt == before.expiresAt
    && (before.used ==> after.used) && (before.revoked ==> after.revoked)
  }

  ghost predicate Evolves(before: seq<Token>, after: seq<Token>) {
    |before| <= |after| && forall i | 0 <= i < |before| :: Outlives(before[i], after[i])
  }

  lemma CommitEvolves(db: Database, id: nat, existing: Token, wallet: Wallet)
    requires id < |db.rows|
    ensures Evolves(db.rows, Commit(db, id, existing, wallet).0.rows)
    ensures Commit(db, id, existing, wallet).0.families == db.families
  {
  }

  lemma RevocationEvolves(db: Database, id: nat, wallet: Wallet)
    ensures Evolves(db.rows, RevokeOne(db, id).rows) && Evolves(db.rows, RevokeWallet(db, wallet).rows)
  {
  }

  lemma StepEvolves(s: System, step: Step)
    ensures Evolves(s.db.rows, Next(s, step).db.rows)
    ensures s.db.families <= Next(s, step).db.families
  {
    match step
    case Write(h) =>
      if h < |s.requests| && s.requests[h].LookedUp? && s.requests[h].id < |s.db.rows| {
        var r := s.requests[h];
        assert Next(s, step).db == Commit(s.db, r.id, r.existing, r.wallet).0;
        CommitEvolves(s.db, r.id, r.existing, r.wallet);
      }
    case Look(_) => assert Next(s, step).db == s.db;
    case Login(wallet) => assert Next(s, step).db == Generate(s.db, wallet);
    case Refresh(_) => assert Next(s, step).db == s.db;
    case Punish(h) =>
      if h < |s.requests| && s.requests[h].Replayed? {
        RevocationEvolves(s.db, 0, s.requests[h].wallet);
      }
    case Abort(_) => assert Next(s, step).db == s.db;
    case Logout(id) => RevocationEvolves(s.db, id, "");
    case Tick(_) =>
  }

  lemma ParentKept(rows: seq<Token>, after: seq<Token>, i: nat)
    requires i < |rows| && HasParent(rows, i)
    requires |rows| <= |after| && forall j | 0 <= j < |rows| ::
               after[j].family == rows[j].family && after[j].depth == rows[j].depth
    ensures HasParent(after, i)
  {
    if rows[i].depth > 0 {
      var j :| SameFamily(rows, i, j) && rows[j].depth == rows[i].depth - 1;
      assert SameFamily(after, i, j);
    }
  }

  lemma RevokingKeepsChains(rows: seq<Token>, after: seq<Token>)
    requires Chains(rows) && Evolves(rows, after) && |after| == |rows|
    ensures Chains(after)
  {
    forall i | 0 <= i < |after| ensures HasParent(after, i) {
      ParentKept(rows, after, i);
    }
    assert forall i, j | SameFamily(after, i, j) :: SameFamily(rows, i, j);
  }

  lemma RootKeepsChains(rows: seq<Token>, root: Token, families: nat)
    requires Chains(rows) && forall i | 0 <= i < |rows| :: rows[i].family < families
    requires root.family == families && root.depth == 0
    ensures Chains(rows + [root])
  {
    var after := rows + [root];
    assert forall i, j | SameFamily(after, i, j) && i < |rows| && j < |rows| :: SameFamily(rows, i, j);
    forall i | 0 <= i < |after| ensures HasParent(after, i) {
      if i < |rows| {
        ParentKept(rows, after, i);
      }
    }
  }

  /** Spending an unspent row leaves its family's newest depth where it is. */
  lemma UnusedIsNewest(rows: seq<Token>, id: nat)
    requires Chains(rows) && id < |rows| && !rows[id].used
    ensures forall i | SameFamily(rows, id, i) ::
              rows[i].wallet == rows[id].wallet && rows[i].depth <= rows[id].depth && (i != id ==> rows[i].used)
  {
    forall i | SameFamily(rows, id, i)
      ensures rows[i].wallet == rows[id].wallet && rows[i].depth <= rows[id].depth && (i != id ==> rows[i].used)
    {
      assert SameFamily(rows, i, id);
    }
  }

  lemma SuccessorKeepsChains(rows: seq<Token>, id: nat, successor: Token)
    requires Chains(rows) && id < |rows| && rows[id].used
    requires forall i | SameFamily(rows, id, i) ::
               rows[i].wallet == rows[id].wallet && rows[i].depth <= rows[id].depth && rows[i].used
    requires successor.wallet == rows[id].wallet && successor.family == rows[id].family
    requires successor.depth == rows[id].depth + 1 <= MAX_REFRESH_FAMILY_DEPTH
    ensures Chains(rows + [successor])
  {
    var after := rows + [successor];
    forall i, j | SameFamily(after, i, j)
      ensures after[i].wallet == after[j].wallet
      ensures after[i].depth == after[j].depth ==> i == j
      ensures after[i].depth < after[j].depth ==> after[i].used
    {
      assert i < |rows| && j < |rows| ==> SameFamily(rows, i, j);
      assert i < |rows| <= j ==> SameFamily(rows, id, i);
      assert j < |rows| <= i ==> SameFamily(rows, id, j);
    }
    forall i | 0 <= i < |after| ensures HasParent(after, i) {
      if i == |rows| {
        assert SameFamily(after, i, id);
      } else {
        ParentKept(rows, after, i);
      }
    }
  }

  /** `after` has one more row: the root of a new family, for the wallet that logs in. */
  ghost predicate Rooted(rows: seq<Token>, after: seq<Token>, families: nat, step: Step) {
    && step.Login?
    && |after| == |rows| + 1 && after == rows + [after[|rows|]]
    && after[|rows|].wallet == step.wallet && after[|rows|].family == families && after[|rows|].depth == 0
    && !after[|rows|].used && !after[|rows|].revoked
  }

  /** `after` has one more row: the successor of a row that was neither used nor revoked until now. */
  ghost predicate Succeeded(rows: seq<Token>, after: seq<Token>, id: int) {
    && 0 <= id < |rows| && !rows[id].used && !rows[id].revoked
    && |after| == |rows| + 1 && after == rows[id := rows[id].(used := true)] + [after[|rows|]]
    && after[|rows|].wallet == rows[id].wallet && after[|rows|].family == rows[id].family
    && after[|rows|].depth == rows[id].depth + 1 <= MAX_REFRESH_FAMILY_DEPTH
    && !after[|rows|].used && !after[|rows|].revoked
  }

  ghost predicate NoneSpent(rows: seq<Token>, after: seq<Token>) {
    |after| == |rows| && forall i | 0 <= i < |rows| :: after[i].used == rows[i].used
  }

  ghost predicate Grows(rows: seq<Token>, after: seq<Token>, families: nat, step: Step) {
    || NoneSpent(rows, after)
    || Rooted(rows, after, families, step)
    || exists id :: Succeeded(rows, after, id)
  }

  /** Rows appear only in these two ways, and only a row with a successor is spent. */
  lemma StepGrows(s: System, step: Step)
    requires Invariant(s)
    ensures Grows(s.db.rows, Next(s, step).db.rows, s.db.families, step)
  {
    var rows, after := s.db.rows, Next(s, step).db.rows;
    if step.Login? {
      assert Rooted(rows, after, s.db.families, step);
    } else if |after| != |rows| {
      var r := s.requests[step.h];
      assert Succeeded(rows, after, r.id);
    } else {
      assert NoneSpent(rows, after);
    }
  }

  lemma FitStaysFit(db: Database, after: Database, r: Request)
    requires RequestFits(db, r) && Evolves(db.rows, after.rows)
    ensures RequestFits(after, r)
  {
    if r.Validated? || r.LookedUp? {
      assert Outlives(db.rows[r.id], after.rows[r.id]);
    }
  }

  /** Every request after a step is either an old one or fits the rows it was made from. */
  lemma NewRequestsFit(s: System, step: Step, i: nat)
    requires Invariant(s) && i < |Next(s, step).requests|
    ensures RequestFits(s.db, Next(s, step).requests[i])
  {
    assert step.Look? && step.h < |s.requests| ==> RequestFits(s.db, s.requests[step.h]);
  }

  lemma RequestsStayFit(s: System, step: Step)
    requires Invariant(s)
    ensures forall i | 0 <= i < |Next(s, step).requests| :: RequestFits(Next(s, step).db, Next(s, step).requests[i])
  {
    StepEvolves(s, step);
    var s' := Next(s, step);
    forall i | 0 <= i < |s'.requests| ensures RequestFits(s'.db, s'.requests[i]) {
      NewRequestsFit(s, step, i);
      FitStaysFit(s.db, s'.db, s'.requests[i]);
    }
  }

  lemma GrowthKeepsChains(rows: seq<Token>, after: seq<Token>, families: nat, step: Step)
    requires Chains(rows) && forall i | 0 <= i < |rows| :: rows[i].family < families
    requires Evolves(rows, after) && Grows(rows, after, families, step)
    ensures Chains(after)
  {
    if |after| == |rows| {
      RevokingKeepsChains(rows, after);
    } else if Rooted(rows, after, families, step) {
      RootKeepsChains(rows, after[|rows|], families);
    } else {
      var id :| Succeeded(rows, after, id);
      var spent := rows[id := rows[id].(used := true)];
      UnusedIsNewest(rows, id);
      RevokingKeepsChains(rows, spent);
      assert forall i | SameFamily(spent, id, i) :: SameFamily(rows, id, i);
      SuccessorKeepsChains(spent, id, after[|rows|]);
    }
  }

  lemma ChildKept(rows: seq<Token>, after: seq<Token>, i: nat)
    requires i < |rows| <= |after| && HasChild(rows, i) && after[i].used == rows[i].used
    requires forall j | 0 <= j < |rows| :: after[j].family == rows[j].family && after[j].depth == rows[j].depth
    ensures HasChild(after, i)
  {
    if rows[i].used {
      var j :| SameFamily(rows, i, j) && rows[j].depth == rows[i].depth + 1;
      assert SameFamily(after, i, j);
    }
  }

  lemma GrowthKeepsLinked(rows: seq<Token>, after: seq<Token>, families: nat, step: Step)
    requires Linked(rows) && Evolves(rows, after) && Grows(rows, after, families, step)
    ensures Linked(after)
  {
    assert forall j | 0 <= j < |rows| :: Outlives(rows[j], after[j]);
    forall i | 0 <= i < |after| ensures HasChild(after, i) {
      if NoneSpent(rows, after) || Rooted(rows, after, families, step) {
        if i < |rows| {
          ChildKept(rows, after, i);
        }
      } else {
        var id :| Succeeded(rows, after, id);
        if i == id {
          assert SameFamily(after, i, |rows|);
        } else if i < |rows| {
          ChildKept(rows, after, i);
        }
      }
    }
  }

  lemma FamiliesStayCounted(s: System, step: Step)
    requires Invariant(s)
    ensures forall i | 0 <= i < |Next(s, step).db.rows| :: Next(s, step).db.rows[i].family < Next(s, step).db.families
  {
    StepEvolves(s, step);
    StepGrows(s, step);
    var rows, after := s.db.rows, Next(s, step).db.rows;
    forall i | 0 <= i < |after| ensures after[i].family < Next(s, step).db.families {
      if i < |rows| {
        assert Outlives(rows[i], after[i]);
      }
    }
  }

  lemma StepKeepsInvariant(s: System, step: Step)
    requires Invariant(s)
    ensures Invariant(Next(s, step))
  {
    StepEvolves(s, step);
    StepGrows(s, step);
    GrowthKeepsChains(s.db.rows, Next(s, step).db.rows, s.db.families, step);
    GrowthKeepsLinked(s.db.rows, Next(s, step).db.rows, s.db.families, step);
    FamiliesStayCounted(s, step);
    RequestsStayFit(s, step);
  }

  lemma {:induction false} EveryRunKeepsInvariant(s: System, steps: seq<Step>)
    requires Invariant(s)
    ensures Invariant(Run(s, steps))
    ensures Evolves(s.db.rows, Run(s, steps).db.rows) && s.db.families <= Run(s, steps).db.families
    decreases |steps|
  {
    if steps == [] {
    } else {
      EveryRunKeepsInvariant(s, steps[..|steps| - 1]);
      StepKeepsInvariant(Run(s, steps[..|steps| - 1]), steps[|steps| - 1]);
      StepEvolves(Run(s, steps[..|steps| - 1]), steps[|steps| - 1]);
    }
  }

  ghost predicate HasDepth(rows: seq<Token>, i: int, d: int) {
    exists j :: SameFamily(rows, i, j) && rows[j].depth == d
  }

  lemma {:induction false} EveryDepthIsHeld(rows: seq<Token>, i: nat, d: nat)
    requires Chains(rows) && i < |rows| && d <= rows[i].depth
    ensures HasDepth(rows, i, d)
    decreases rows[i].depth
  {
    if d == rows[i].depth {
      assert SameFamily(rows, i, i);
    } else {
      assert HasParent(rows, i);
      var parent :| SameFamily(rows, i, parent) && rows[parent].depth == rows[i].depth - 1;
      EveryDepthIsHeld(rows, parent, d);
      var j :| SameFamily(rows, parent, j) && rows[j].depth == d;
      assert SameFamily(rows, i, j);
    }
  }

  /** Row `tip` is the newest of a family with exactly one row for each depth up to its own. */
  ghost predicate ChainUpTo(rows: seq<Token>, tip: nat)
    requires tip < |rows|
  {
    && rows[tip].depth <= MAX_REFRESH_FAMILY_DEPTH
    && (forall i | SameFamily(rows, tip, i) ::
          && rows[i].wallet == rows[tip].wallet
          && rows[i].depth <= rows[tip].depth
          && (i != tip <==> rows[i].used))
    && (forall d | 0 <= d <= rows[tip].depth :: HasDepth(rows, tip, d))
    && (forall i, j | SameFamily(rows, tip, i) && SameFamily(rows, tip, j) && rows[i].depth == rows[j].depth :: i == j)
  }

  /** Row `tip` is the newest of the family of row `id`. */
  ghost predicate Newest(rows: seq<Token>, id: nat, tip: nat) {
    SameFamily(rows, id, tip) && forall i | SameFamily(rows, id, i) :: rows[i].depth <= rows[tip].depth
  }

  lemma {:induction false} HasNewest(rows: seq<Token>, id: nat, tip: nat, n: nat)
    requires SameFamily(rows, id, tip) && n <= |rows|
    requires forall i | 0 <= i < n && SameFamily(rows, id, i) :: rows[i].depth <= rows[tip].depth
    ensures exists newest :: Newest(rows, id, newest)
    decreases |rows| - n
  {
    if n == |rows| {
      assert Newest(rows, id, tip);
    } else if rows[n].family == rows[id].family && rows[n].depth > rows[tip].depth {
      HasNewest(rows, id, n, n + 1);
    } else {
      HasNewest(rows, id, tip, n + 1);
    }
  }

  lemma NewestIsUnspent(rows: seq<Token>, tip: nat)
    requires Linked(rows) && tip < |rows| && forall i | SameFamily(rows, tip, i) :: rows[i].depth <= rows[tip].depth
    ensures !rows[tip].used
  {
    assert HasChild(rows, tip);
  }

  /**
    In every interleaving, the family of every token is a chain: one token for each depth up to the
    newest, all of one wallet, spent exactly if it is not the newest, at depth at most 100.
   */
  lemma FamiliesAreChains(now: int, steps: seq<Step>, id: nat)
    requires id < |Run(Start(now), steps).db.rows|
    ensures var rows := Run(Start(now), steps).db.rows;
            exists tip: nat :: tip < |rows| && rows[tip].family == rows[id].family && ChainUpTo(rows, tip)
  {
    EveryRunKeepsInvariant(Start(now), steps);
    var rows := Run(Start(now), steps).db.rows;
    HasNewest(rows, id, id, 0);
    var tip: nat :| Newest(rows, id, tip);
    forall i | SameFamily(rows, tip, i)
      ensures rows[i].wallet == rows[tip].wallet && rows[i].depth <= rows[tip].depth && (i != tip <==> rows[i].used)
    {
      assert SameFamily(rows, i, tip) && SameFamily(rows, id, i);
      NewestIsUnspent(rows, tip);
    }
    forall d | 0 <= d <= rows[tip].depth ensures HasDepth(rows, tip, d) {
      EveryDepthIsHeld(rows, tip, d);
    }
    forall i, j | SameFamily(rows, tip, i) && SameFamily(rows, tip, j) && rows[i].depth == rows[j].depth
      ensures i == j
    {
      assert SameFamily(rows, i, j);
    }
    assert ChainUpTo(rows, tip);
  }

  // ---------------------------------------------------------------- death after replay

  /** Presenting a spent token, at the lookup or by losing the race for the claim, arms the revocation. */
  lemma SpentTokenArmsRevocation(s: System, h: nat)
    requires Invariant(s) && h < |s.requests| && (s.requests[h].Validated? || s.requests[h].LookedUp?)
    requires s.db.rows[s.requests[h].id].used
    ensures var r := s.requests[h];
            Next(s, if r.Validated? then Look(h) else Write(h)).requests[h] == Replayed(s.db.rows[r.id].wallet)
  {
    assert RequestFits(s.db, s.requests[h]);
    SpentIsBelowLimit(s.db.rows, s.requests[h].id);
  }

  predicate Presentable(db: Database, id: nat) {
    id < |db.rows| && db.rows[id].expiresAt > db.now && !db.rows[id].revoked
  }

  /** Presenting a spent token that is neither expired nor revoked is seen for what it is, whoever presents it. */
  lemma ReplayIsDetected(s: System, id: nat)
    requires Invariant(s) && Presentable(s.db, id) && s.db.rows[id].used
    ensures Next(Next(s, Refresh(id)), Look(|s.requests|)).requests
            == s.requests + [Replayed(s.db.rows[id].wallet)]
  {
    UninterruptedLook(s, id);
  }

  /** A token that is unknown, expired or revoked starts no rotation. */
  lemma UnpresentableIsIgnored(s: System, id: nat)
    ensures Next(s, Refresh(id)) == s <==> !Presentable(s.db, id)
  {
    if Presentable(s.db, id) {
      assert |Next(s, Refresh(id)).requests| == |s.requests| + 1;
    }
  }

  /** The state in which the lookup of an uninterrupted refresh has decided between replay and rotation. */
  function Decided(s: System, id: nat): System
    requires id < |s.db.rows|
  {
    var row := s.db.rows[id];
    s.(requests := s.requests + [if row.used then Replayed(row.wallet) else LookedUp(id, row.wallet, row)])
  }

  lemma UninterruptedLook(s: System, id: nat)
    requires Invariant(s) && Presentable(s.db, id)
    ensures Next(Next(s, Refresh(id)), Look(|s.requests|)) == Decided(s, id)
  {
    var h, row := |s.requests|, s.db.rows[id];
    var validated := s.(requests := s.requests + [Validated(id, row.wallet)]);
    assert Next(s, Refresh(id)) == validated;
    var decided := Decided(s, id).requests[h];
    assert validated.requests[h := decided] == s.requests + [decided];
  }

  /** What an uninterrupted refresh with a presentable token leaves of the database. */
  function Refreshed(db: Database, id: nat): Database
    requires id < |db.rows|
  {
    var row := db.rows[id];
    if row.used then RevokeWallet(db, row.wallet)
    else if row.depth >= MAX_REFRESH_FAMILY_DEPTH then db.(rows := RevokeFamily(db.rows, row.family))
    else db.(rows := Rotated(db, id))
  }

  /** The row is spent and its successor added. */
  function Rotated(db: Database, id: nat): seq<Token>
    requires id < |db.rows|
  {
    var row := db.rows[id];
    db.rows[id := row.(used := true)]
    + [Token(row.wallet, row.family, row.depth + 1, db.now + REFRESH_TOKEN_EXPIRY_MS, false, false)]
  }

  /** The lookup, in every state: a spent token is a replay, a dead one ends the request, any other goes on. */
  lemma LookDecides(s: System, h: nat)
    requires Invariant(s) && h < |s.requests| && s.requests[h].Validated?
    ensures var id, row := s.requests[h].id, s.db.rows[s.requests[h].id];
            Next(s, Look(h))
            == s.(requests := s.requests[h := if row.used then Replayed(row.wallet)
                                              else if row.revoked || row.expiresAt <= s.db.now then Finished
                                              else LookedUp(id, row.wallet, row)])
  {
    assert RequestFits(s.db, s.requests[h]);
  }

  /** The commit, in every state, told from the row as it is by then. */
  lemma WriteDecides(s: System, h: nat)
    requires Invariant(s) && h < |s.requests| && s.requests[h].LookedUp?
    ensures var id, row := s.requests[h].id, s.db.rows[s.requests[h].id];
            Next(s, Write(h))
            == if row.depth >= MAX_REFRESH_FAMILY_DEPTH then
                 System(s.db.(rows := RevokeFamily(s.db.rows, row.family)), s.requests[h := Finished])
               else if row.used || row.revoked then s.(requests := s.requests[h := Replayed(row.wallet)])
               else System(s.db.(rows := Rotated(s.db, id)), s.requests[h := Finished])
  {
    assert RequestFits(s.db, s.requests[h]);
  }

  /** A refresh that nothing interrupts: a replay is punished, the limit ends the family, other tokens rotate. */
  lemma UninterruptedRefresh(s: System, id: nat)
    requires Invariant(s) && Presentable(s.db, id)
    ensures var h := |s.requests|;
            Next(Next(Next(Next(s, Refresh(id)), Look(h)), Write(h)), Punish(h)).db == Refreshed(s.db, id)
  {
    var h := |s.requests|;
    UninterruptedLook(s, id);
    StepKeepsInvariant(s, Refresh(id));
    StepKeepsInvariant(Next(s, Refresh(id)), Look(h));
    DecidedIsCarriedOut(Decided(s, id), h);
  }

  lemma DecidedIsCarriedOut(s: System, h: nat)
    requires Invariant(s) && h < |s.requests|
    requires match s.requests[h]
             case Replayed(_) => true
             case LookedUp(id, _, existing) => s.db.rows[id] == existing
             case _ => false
    ensures Next(Next(s, Write(h)), Punish(h)).db
            == if s.requests[h].Replayed? then RevokeWallet(s.db, s.requests[h].wallet)
               else if s.requests[h].existing.depth >= MAX_REFRESH_FAMILY_DEPTH
               then s.db.(rows := RevokeFamily(s.db.rows, s.requests[h].existing.family))
               else s.db.(rows := Rotated(s.db, s.requests[h].id))
  {
    assert RequestFits(s.db, s.requests[h]);
    if s.requests[h].LookedUp? {
      WriteDecides(s, h);
    }
  }

  /** The rows of `rows` that `hit` names are revoked, and nothing else changes. */
  ghost predicate RevokesExactly(rows: seq<Token>, after: seq<Token>, hit: set<nat>) {
    && |after| == |rows|
    && forall i: nat | i < |rows| :: after[i] == if i in hit then rows[i].(revoked := true) else rows[i]
  }

  /** What the steps other than a commit do to the rows. */
  lemma StepRows(s: System, step: Step)
    requires !step.Write?
    ensures var rows, after := s.db.rows, Next(s, step).db.rows;
            match step
            case Login(wallet) =>
              after == rows + [Token(wallet, s.db.families, 0, s.db.now + REFRESH_TOKEN_EXPIRY_MS, false, false)]
            case Logout(id) => RevokesExactly(rows, after, {id})
            case Punish(h) =>
              if h < |s.requests| && s.requests[h].Replayed?
              then RevokesExactly(rows, after, set i: nat | i < |rows| && rows[i].wallet == s.requests[h].wallet)
              else after == rows
            case _ => after == rows
  {
  }

  /** A spent token has a successor, so it is below the depth limit. */
  lemma SpentIsBelowLimit(rows: seq<Token>, id: nat)
    requires Chains(rows) && Linked(rows) && id < |rows| && rows[id].used
    ensures rows[id].depth < MAX_REFRESH_FAMILY_DEPTH
  {
    assert HasChild(rows, id);
  }

  /**
    Exactly when the commit of a rotation calls for punishment: when its row, usable at the lookup,
    has been used or revoked since and is below the depth limit.  Revocation counts too, although
    only reuse is documented to.
   */
  lemma PunishedExactlyWhenOvertaken(s: System, h: nat)
    requires Invariant(s) && h < |s.requests| && s.requests[h].LookedUp?
    ensures var r := s.requests[h];
            var row := s.db.rows[r.id];
            && !r.existing.used && !r.existing.revoked
            && Next(s, Write(h)).requests[h]
               == if row.depth < MAX_REFRESH_FAMILY_DEPTH && (row.used || row.revoked)
                  then Replayed(row.wallet) else Finished
  {
    assert RequestFits(s.db, s.requests[h]);
  }

  /**
    So a logout that overtakes a refresh of the same token is punished as a replay with nothing
    reused, unless the family is at its limit.
   */
  lemma LogoutDuringRefreshIsPunished(s: System, h: nat)
    requires Invariant(s) && h < |s.requests| && s.requests[h].LookedUp?
    requires !s.db.rows[s.requests[h].id].used
    ensures var r := s.requests[h];
            var after := Next(Next(s, Logout(r.id)), Write(h));
            && after.requests[h]
               == (if r.existing.depth < MAX_REFRESH_FAMILY_DEPTH then Replayed(r.wallet) else Finished)
            && NoneSpent(s.db.rows, after.db.rows)
  {
    assert RequestFits(s.db, s.requests[h]);
  }

  lemma RunOneMore(s: System, steps: seq<Step>, step: Step)
    ensures Run(s, steps + [step]) == Next(Run(s, steps), step)
  {
    assert (steps + [step])[..|steps|] == steps;
  }

  lemma RunOfFive(s: System, a: Step, b: Step, c: Step, d: Step, e: Step)
    ensures Run(s, [a, b, c, d, e]) == Next(Next(Next(Next(Next(s, a), b), c), d), e)
  {
    assert [] + [a] == [a] && [a] + [b] == [a, b] && [a, b] + [c] == [a, b, c];
    assert [a, b, c] + [d] == [a, b, c, d] && [a, b, c, d] + [e] == [a, b, c, d, e];
    RunOneMore(s, [], a);
    RunOneMore(s, [a], b);
    RunOneMore(s, [a, b], c);
    RunOneMore(s, [a, b, c], d);
    RunOneMore(s, [a, b, c, d], e);
  }

  /** From the empty database: one login, one refresh overtaken by its own logout, and nothing reused. */
  lemma LogoutRunIsPunished(now: int, wallet: Wallet)
    ensures var s := Run(Start(now), [Login(wallet), Refresh(0), Look(0), Logout(0), Write(0)]);
            && s.requests == [Replayed(wallet)]
            && s.db.rows == [Token(wallet, 0, 0, now + REFRESH_TOKEN_EXPIRY_MS, false, true)]
  {
    var row := Token(wallet, 0, 0, now + REFRESH_TOKEN_EXPIRY_MS, false, false);
    var loggedIn := System(Database([row], 1, now), []);
    var lookedUp := loggedIn.(requests := [LookedUp(0, wallet, row)]);
    var loggedOut := lookedUp.(db := Database([row.(revoked := true)], 1, now));
    RunOfFive(Start(now), Login(wallet), Refresh(0), Look(0), Logout(0), Write(0));
    assert Next(Start(now), Login(wallet)) == loggedIn;
    assert Next(loggedIn, Refresh(0)) == loggedIn.(requests := [Validated(0, wallet)]);
    assert Next(loggedIn.(requests := [Validated(0, wallet)]), Look(0)) == lookedUp;
    assert Next(lookedUp, Logout(0)) == loggedOut;
    assert Next(loggedOut, Write(0)) == loggedOut.(requests := [Replayed(wallet)]);
  }

  /** An armed revocation stays armed until it runs or its request is cut off. */
  lemma {:induction false} ArmedStaysArmed(s: System, h: nat, steps: seq<Step>)
    requires h < |s.requests| && s.requests[h].Replayed?
    requires Punish(h) !in steps && Abort(h) !in steps
    ensures h < |Run(s, steps).requests| && Run(s, steps).requests[h] == s.requests[h]
    decreases |steps|
  {
    if steps == [] {
    } else {
      ArmedStaysArmed(s, h, steps[..|steps| - 1]);
      assert steps[|steps| - 1] in steps;
    }
  }

  /** Every family the wallet owned when its revocation ran has only revoked rows, and stays that size. */
  ghost predicate Dead(rows: seq<Token>, size: nat, wallet: Wallet, families: nat) {
    && size <= |rows|
    && (forall i | 0 <= i < size && rows[i].wallet == wallet :: rows[i].revoked)
    && (forall i | size <= i < |rows| && rows[i].family < families :: rows[i].wallet != wallet)
  }

  lemma GrowthKeepsDead(rows: seq<Token>, after: seq<Token>, counted: nat, step: Step,
                        size: nat, wallet: Wallet, families: nat)
    requires Chains(rows) && families <= counted && Dead(rows, size, wallet, families)
    requires Evolves(rows, after) && Grows(rows, after, counted, step)
    ensures Dead(after, size, wallet, families)
  {
    forall i | 0 <= i < |after| && after[i].wallet == wallet
      ensures i < size ==> after[i].revoked
      ensures size <= i ==> after[i].family >= families
    {
      if i < |rows| {
        assert Outlives(rows[i], after[i]);
      } else if !Rooted(rows, after, counted, step) {
        var id :| Succeeded(rows, after, id);
      }
    }
  }

  /**
    After the revocation that answers a replay, no family the wallet then owned ever gets a token
    again, and none of its tokens ever comes back, in any continuation.
   */
  lemma {:induction false} ReplayKillsFamilies(s: System, h: nat, steps: seq<Step>)
    requires Invariant(s) && h < |s.requests| && s.requests[h].Replayed?
    ensures var after := Run(Next(s, Punish(h)), steps).db.rows;
            Dead(after, |s.db.rows|, s.requests[h].wallet, s.db.families)
    decreases |steps|
  {
    var s1 := Next(s, Punish(h));
    StepKeepsInvariant(s, Punish(h));
    if steps == [] {
    } else {
      var before := steps[..|steps| - 1];
      ReplayKillsFamilies(s, h, before);
      EveryRunKeepsInvariant(s1, before);
      var s2, step := Run(s1, before), steps[|steps| - 1];
      StepEvolves(s2, step);
      StepGrows(s2, step);
      GrowthKeepsDead(s2.db.rows, Next(s2, step).db.rows, s2.db.families, step,
                      |s.db.rows|, s.requests[h].wallet, s.db.families);
    }
  }

  ghost predicate NoLiveToken(rows: seq<Token>, wallet: Wallet) {
    forall t | t in rows && t.wallet == wallet :: t.revoked
  }

  lemma GrowthKeepsNoLiveToken(rows: seq<Token>, after: seq<Token>, families: nat, step: Step, wallet: Wallet)
    requires NoLiveToken(rows, wallet) && step != Login(wallet)
    requires Evolves(rows, after) && Grows(rows, after, families, step)
    ensures NoLiveToken(after, wallet)
  {
    if exists id :: Succeeded(rows, after, id) {
      var id :| Succeeded(rows, after, id);
      assert rows[id] in rows;
    }
    forall i | 0 <= i < |rows| && after[i].wallet == wallet ensures after[i].revoked {
      assert Outlives(rows[i], after[i]) && rows[i] in rows;
    }
  }

  /** Only a new login gives the wallet a usable token again. */
  lemma {:induction false} OnlyLoginRevives(s: System, h: nat, steps: seq<Step>)
    requires Invariant(s) && h < |s.requests| && s.requests[h].Replayed?
    requires Login(s.requests[h].wallet) !in steps
    ensures NoLiveToken(Run(Next(s, Punish(h)), steps).db.rows, s.requests[h].wallet)
    decreases |steps|
  {
    var s1 := Next(s, Punish(h));
    StepKeepsInvariant(s, Punish(h));
    if steps == [] {
    } else {
      var before, step := steps[..|steps| - 1], steps[|steps| - 1];
      OnlyLoginRevives(s, h, before);
      EveryRunKeepsInvariant(s1, before);
      var s2 := Run(s1, before);
      StepEvolves(s2, step);
      StepGrows(s2, step);
      GrowthKeepsNoLiveToken(s2.db.rows, Next(s2, step).db.rows, s2.db.families, step, s.requests[h].wallet);
    }
  }
}
