/** Password-reset tokens (`crates/pertisk-mgmt/src/auth.rs`): rows of a table, created and consumed
    by requests whose SQL statements are atomic but interleave. A row's id and the hash of its
    token are one number here. */
module ResetTokens {

  const TTL: nat := 3600

  datatype Row = Row(user: nat, expires: nat, used: bool)

  type Table = map<nat, Row>

  // ----- the statements

  /** The tokens of the user are used from now on. */
  function Invalidated(t: Table, user: nat): (r: Table)
    ensures r.Keys == t.Keys
    ensures forall id :: id in t ==> r[id] == if t[id].user == user then t[id].(used := true) else t[id]
  {
    map id | id in t :: if t[id].user == user then t[id].(used := true) else t[id]
  }

  predicate Unused(t: Table, id: nat) { id in t && !t[id].used }

  ghost predicate NoneUnused(t: Table, user: nat) { forall id :: Unused(t, id) ==> t[id].user != user }

  /** Each user has at most one token that can still be consumed. */
  ghost predicate OneUnused(t: Table) {
    forall i, j :: Unused(t, i) && Unused(t, j) && t[i].user == t[j].user ==> i == j
  }

  /** The two request handlers, each run without interruption on its table. */
  class TokenTable {
    var rows: Table

    /** `create_password_reset_token`; the outcome of the first statement is ignored. */
    method Create(user: nat, token: nat, now: nat, invalidates: bool)
      requires token !in rows
      modifies this
      ensures rows == (if invalidates then Invalidated(old(rows), user) else old(rows))
                      [token := Row(user, now + 3600, false)]
      ensures OneUnused(old(rows)) && (invalidates || NoneUnused(old(rows), user)) ==> OneUnused(rows)
      ensures forall id :: id in old(rows) && old(rows)[id].used ==> rows[id].used
    {
      if invalidates {
        rows := Invalidated(rows, user);
      }
      rows := rows[token := Row(user, now + TTL, false)];
    }

    /** `consume_password_reset_token`. */
    method Consume(token: nat, now: nat) returns (ok: bool, user: nat)
      modifies this
      ensures ok <==> Unused(old(rows), token) && now <= old(rows)[token].expires
      ensures ok ==> user == old(rows)[token].user && rows == old(rows)[token := old(rows)[token].(used := true)]
      ensures !ok ==> rows == old(rows)
      ensures OneUnused(old(rows)) ==> OneUnused(rows)
    {
      ok, user := false, 0;
      if token !in rows {
        return;
      }
      var row := rows[token];
      if row.used || row.expires < now {
        return;
      }
      var affected := if Unused(rows, token) then 1 else 0;
      if affected == 0 {
        return;
      }
      rows := rows[token := row.(used := true)];
      ok, user := true, row.user;
    }
  }

  // ----- interleaved requests

  datatype Consumer = Looked(token: nat, row: Row) | Checked(token: nat, user: nat, checkedAt: nat)

  /** A creation between its two statements; `clean` records that the first one worked and no
      token of the user was inserted since. */
  datatype Creator = Creator(user: nat, clean: bool)

  datatype Win = Win(token: nat, user: nat, checkedAt: nat)

  datatype State = State(
    rows: Table,
    now: nat,
    consumers: map<nat, Consumer>,
    creators: map<nat, Creator>,
    wins: seq<Win>,              // consumptions that returned a user
    revoked: set<nat>)           // tokens that a creation found unused and marked

  datatype Action =
    | Tick
    | Look(c: nat, token: nat)                       // consumer c reads the row
    | Check(c: nat)                                  // and checks the copy
    | Mark(c: nat)                                   // and updates the row if it is unused
    | Invalidate(k: nat, user: nat, works: bool)     // creator k marks the user's tokens
    | Insert(k: nat, token: nat)                     // and inserts a new one

  predicate Enabled(s: State, a: Action) {
    match a
    case Tick => true
    case Look(c, token) => c !in s.consumers && token in s.rows
    case Check(c) => c in s.consumers && s.consumers[c].Looked?
    case Mark(c) => c in s.consumers && s.consumers[c].Checked?
    case Invalidate(k, _, _) => k !in s.creators
    case Insert(k, token) => k in s.creators && token !in s.rows
  }

  function Step(s: State, a: Action): State
    requires Enabled(s, a)
  {
    match a
    case Tick => s.(now := s.now + 1)
    case Look(c, token) => s.(consumers := s.consumers[c := Looked(token, s.rows[token])])
    case Check(c) =>
      var look := s.consumers[c];
      if look.row.used || look.row.expires < s.now then s.(consumers := s.consumers - {c})
      else s.(consumers := s.consumers[c := Checked(look.token, look.row.user, s.now)])
    case Mark(c) =>
      var check := s.consumers[c];
      if Unused(s.rows, check.token) then
        s.(rows := s.rows[check.token := s.rows[check.token].(used := true)],
           consumers := s.consumers - {c}, wins := s.wins + [Win(check.token, check.user, check.checkedAt)])
      else s.(consumers := s.consumers - {c})
    case Invalidate(k, user, works) =>
      if works then
        s.(rows := Invalidated(s.rows, user), creators := s.creators[k := Creator(user, true)],
           revoked := s.revoked + set id | id in s.rows && !s.rows[id].used && s.rows[id].user == user)
      else s.(creators := s.creators[k := Creator(user, false)])
    case Insert(k, token) =>
      var user := s.creators[k].user;
      s.(rows := s.rows[token := Row(user, s.now + TTL, false)],
         creators := map j | j in s.creators && j != k ::
                       if s.creators[j].user == user then s.creators[j].(clean := false) else s.creators[j])
  }

  predicate CanRun(s: State, run: seq<Action>)
    decreases |run|
  {
    run == [] || (Enabled(s, run[0]) && CanRun(Step(s, run[0]), run[1..]))
  }

  function After(s: State, run: seq<Action>): State
    requires CanRun(s, run)
    decreases |run|
  {
    if run == [] then s else After(Step(s, run[0]), run[1..])
  }

  /** A table with any rows, and no request under way. */
  predicate Calm(s: State) { s.consumers == map[] && s.creators == map[] && s.wins == [] && s.revoked == {} }

  // ----- single use

  /** The token was used up, belongs to the user and was still good when it was checked. */
  predicate WinOk(s: State, w: Win) {
    && w.token in s.rows && s.rows[w.token].used && s.rows[w.token].user == w.user
    && w.checkedAt <= s.rows[w.token].expires && w.token !in s.revoked
  }

  predicate TokensOk(s: State) {
    && (forall i :: 0 <= i < |s.wins| ==> WinOk(s, s.wins[i]))
    && (forall i, j :: 0 <= i < j < |s.wins| ==> s.wins[i].token != s.wins[j].token)
    && (forall id :: id in s.revoked ==> id in s.rows && s.rows[id].used)
  }

  /** What a consumer remembers of its row is still true, except that it may be used by now. */
  predicate CopyOk(s: State, c: Consumer) {
    c.token in s.rows
    && match c
       case Looked(token, row) => row.user == s.rows[token].user && row.expires == s.rows[token].expires
       case Checked(token, user, at) => user == s.rows[token].user && at <= s.rows[token].expires
  }

  ghost predicate CleanOk(s: State) {
    forall k :: k in s.creators && s.creators[k].clean ==> NoneUnused(s.rows, s.creators[k].user)
  }

  ghost predicate Inv(s: State) {
    TokensOk(s) && CleanOk(s) && forall c :: c in s.consumers ==> CopyOk(s, s.consumers[c])
  }

  /** Rows stay, keep user and expiry, and used tokens stay used. */
  predicate Keeps(t: Table, u: Table) {
    forall id :: id in t ==>
      id in u && u[id].user == t[id].user && u[id].expires == t[id].expires && (t[id].used ==> u[id].used)
  }

  lemma StepKeepsRows(s: State, a: Action)
    requires Enabled(s, a)
    ensures Keeps(s.rows, Step(s, a).rows)
  {
  }

  lemma TokensKept(s: State, a: Action)
    requires Inv(s) && Enabled(s, a)
    ensures TokensOk(Step(s, a))
  {
    hide NoneUnused;
  }

  lemma CleanKept(s: State, a: Action)
    requires CleanOk(s) && Enabled(s, a)
    ensures CleanOk(Step(s, a))
  {
  }

  lemma StepKeeps(s: State, a: Action)
    requires Inv(s) && Enabled(s, a)
    ensures Inv(Step(s, a))
  {
    hide TokensOk, CleanOk, NoneUnused, WinOk;
    var t := Step(s, a);
    StepKeepsRows(s, a);
    TokensKept(s, a);
    CleanKept(s, a);
    forall c | c in t.consumers ensures CopyOk(t, t.consumers[c]) {
      if c in s.consumers {
        assert CopyOk(s, s.consumers[c]);
      }
    }
  }

  lemma {:induction false} RunKeeps(s: State, run: seq<Action>)
    requires Inv(s) && CanRun(s, run)
    ensures Inv(After(s, run)) && Keeps(s.rows, After(s, run).rows)
    ensures s.wins <= After(s, run).wins && s.revoked <= After(s, run).revoked
    decreases |run|
  {
    hide Inv, Enabled;
    if run != [] {
      StepKeeps(s, run[0]);
      StepKeepsRows(s, run[0]);
      LogsGrow(s, run[0]);
      RunKeeps(Step(s, run[0]), run[1..]);
    }
  }

  lemma LogsGrow(s: State, a: Action)
    requires Enabled(s, a)
    ensures s.wins <= Step(s, a).wins && s.revoked <= Step(s, a).revoked
  {
  }

  /** Every token is consumed at most once, by its own user, while it has not expired, and never if
      a creation found it unused and marked it: over all interleavings of any number of requests. */
  lemma {:induction false} TokensAreSingleUse(s: State, run: seq<Action>)
    requires Calm(s) && CanRun(s, run)
    ensures var t := After(s, run);
            && (forall i, j :: 0 <= i < j < |t.wins| ==> t.wins[i].token != t.wins[j].token)
            && (forall i :: 0 <= i < |t.wins| ==> WinOk(t, t.wins[i]))
  {
    RunKeeps(s, run);
  }

  /** Once a token is used, whether consumed or revoked, no later consumption of it succeeds. */
  lemma {:induction false} UsedStaysUsed(s: State, run: seq<Action>, token: nat)
    requires Inv(s) && CanRun(s, run) && token in s.rows && s.rows[token].used
    ensures var t := After(s, run);
            forall i :: |s.wins| <= i < |t.wins| ==> t.wins[i].token != token
    decreases |run|
  {
    hide Inv, Enabled, Keeps;
    if run != [] {
      var t := Step(s, run[0]);
      StepKeeps(s, run[0]);
      StepKeepsRows(s, run[0]);
      LogsGrow(s, run[0]);
      KeptUsed(s, run[0], token);
      UsedStaysUsed(t, run[1..], token);
      RunKeeps(t, run[1..]);
    }
  }

  lemma KeptUsed(s: State, a: Action, token: nat)
    requires Enabled(s, a) && token in s.rows && s.rows[token].used
    ensures var t := Step(s, a);
            && token in t.rows && t.rows[token].used
            && forall i :: |s.wins| <= i < |t.wins| ==> t.wins[i].token != token
  {
  }

  // ----- consumption

  /** In every state, whoever else is half way, a consumer whose statements run back to back wins
      the token exactly if it is unused and not expired, and else gives up with nothing changed. */
  lemma {:induction false} GoodTokensAreConsumed(s: State, c: nat, token: nat)
    requires c !in s.consumers && token in s.rows
    ensures Enabled(s, Look(c, token)) && Enabled(Step(s, Look(c, token)), Check(c))
    ensures var row, checked := s.rows[token], Step(Step(s, Look(c, token)), Check(c));
            if !row.used && s.now <= row.expires then
              && Enabled(checked, Mark(c))
              && var t := Step(checked, Mark(c));
                 t.wins == s.wins + [Win(token, row.user, s.now)] && t.rows == s.rows[token := row.(used := true)]
                 && t.consumers == s.consumers
            else checked == s
  {
    var looked := Step(s, Look(c, token));
    assert looked.consumers[c] == Looked(token, s.rows[token]);
    var checked := Step(looked, Check(c));
    assert looked.consumers - {c} == s.consumers;
    if !s.rows[token].used && s.now <= s.rows[token].expires {
      assert checked.consumers[c] == Checked(token, s.rows[token].user, s.now);
      assert checked.consumers - {c} == s.consumers;
    }
  }

  /** A consumer that has checked its copy wins exactly if nobody used the token up in between. */
  lemma {:induction false} CheckedWinsIfUnused(s: State, c: nat)
    requires Enabled(s, Mark(c))
    ensures var token := s.consumers[c].token;
            |Step(s, Mark(c)).wins| == |s.wins| + (if token in s.rows && !s.rows[token].used then 1 else 0)
  {
  }

  // ----- one unused token

  /** Every insertion of the run comes from a creation whose first statement worked and after
      which no other creation inserted a token for the same user. */
  predicate CleanRun(s: State, run: seq<Action>)
    requires CanRun(s, run)
    decreases |run|
  {
    run == []
    || ((run[0].Insert? ==> s.creators[run[0].k].clean) && CleanRun(Step(s, run[0]), run[1..]))
  }

  /** A step leaves at most one unused token per user, exactly unless it inserts a token for a user
      who has one. */
  lemma {:induction false} OneUnusedStep(s: State, a: Action)
    requires Enabled(s, a) && OneUnused(s.rows)
    ensures OneUnused(Step(s, a).rows) <==> (a.Insert? ==> NoneUnused(s.rows, s.creators[a.k].user))
  {
    var t := Step(s, a);
    if a.Insert? {
      var user := s.creators[a.k].user;
      assert Unused(t.rows, a.token);
      if !NoneUnused(s.rows, user) {
        var id :| Unused(s.rows, id) && s.rows[id].user == user;
        assert Unused(t.rows, id) && id != a.token;
      }
    }
    forall i | Unused(t.rows, i) && !a.Insert? ensures Unused(s.rows, i) && s.rows[i].user == t.rows[i].user {
    }
  }

  /** If creations do not overlap for a user and their first statement works, each user has at most
      one unused token at any time. */
  lemma {:induction false} CleanRunsLeaveOne(s: State, run: seq<Action>)
    requires Inv(s) && OneUnused(s.rows) && CanRun(s, run) && CleanRun(s, run)
    ensures OneUnused(After(s, run).rows)
    decreases |run|
  {
    hide OneUnused, NoneUnused, TokensOk, CopyOk;
    if run != [] {
      StepKeeps(s, run[0]);
      OneUnusedStep(s, run[0]);
      CleanRunsLeaveOne(Step(s, run[0]), run[1..]);
    }
  }

  /** A creation whose statements run back to back is clean: whatever came before, its insertion
      leaves the user with the new token only. */
  lemma {:induction false} AtomicCreationLeavesOne(s: State, k: nat, user: nat, token: nat)
    requires Inv(s) && k !in s.creators && token !in s.rows
    ensures var run := [Invalidate(k, user, true), Insert(k, token)];
            && CanRun(s, run) && CleanRun(s, run)
            && (forall id :: Unused(After(s, run).rows, id) && After(s, run).rows[id].user == user ==> id == token)
            && token in After(s, run).rows && After(s, run).rows[token] == Row(user, s.now + 3600, false)
  {
    var run := [Invalidate(k, user, true), Insert(k, token)];
    var t := Step(s, run[0]);
    var u := Step(t, run[1]);
    assert run[1..] == [Insert(k, token)] && run[1..][1..] == [];
    assert CanRun(u, []) && CleanRun(u, []);
    assert CanRun(t, run[1..]) && CleanRun(t, run[1..]);
    assert After(s, run) == After(t, run[1..]) == u;
  }

  /** Two creations that overlap, or one whose first statement fails, leave two usable tokens. */
  lemma {:induction false} OverlapLeavesTwo(s: State, user: nat)
    requires Calm(s) && s.rows == map[]
    ensures var run := [Invalidate(0, user, true), Invalidate(1, user, true), Insert(0, 10), Insert(1, 11)];
            CanRun(s, run) && !OneUnused(After(s, run).rows)
    ensures var run := [Invalidate(0, user, true), Insert(0, 10), Invalidate(1, user, false), Insert(1, 11)];
            CanRun(s, run) && !OneUnused(After(s, run).rows)
  {
    TwoUnused(s, user, Invalidate(0, user, true), Invalidate(1, user, true), Insert(0, 10), Insert(1, 11));
    TwoUnused(s, user, Invalidate(0, user, true), Insert(0, 10), Invalidate(1, user, false), Insert(1, 11));
  }

  lemma TwoUnused(s: State, user: nat, a: Action, b: Action, c: Action, d: Action)
    requires Calm(s) && s.rows == map[] && a == Invalidate(0, user, true) && d == Insert(1, 11)
    requires (b == Invalidate(1, user, true) && c == Insert(0, 10))
          || (b == Insert(0, 10) && c == Invalidate(1, user, false))
    ensures var run := [a, b, c, d]; CanRun(s, run) && !OneUnused(After(s, run).rows)
  {
    var run := [a, b, c, d];
    var t := Step(s, a);
    var u := Step(t, b);
    var v := Step(u, c);
    var w := Step(v, d);
    assert run[1..] == [b, c, d] && run[1..][1..] == [c, d] && run[1..][1..][1..] == [d];
    assert run[1..][1..][1..][1..] == [];
    assert CanRun(w, []);
    assert CanRun(v, [d]) && After(v, [d]) == w;
    assert CanRun(u, [c, d]) && After(u, [c, d]) == w;
    assert CanRun(t, [b, c, d]) && After(t, [b, c, d]) == w;
    assert Unused(w.rows, 10) && Unused(w.rows, 11);
  }
}
