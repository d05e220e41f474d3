/** The in-memory store: sessions, the bankroll ledger and settings, each kept
    in insertion order as a JavaScript `Map` keeps them.  Every mutation is a
    function from the old store to the new one together with what the source
    method returns. */
module MemStorage {
  import opened Optional
  import opened Records
  import opened Ordering

  /** `nextId` is the fresh-id supply standing in for `randomUUID`: every id
      in use is below it, and each new record takes it and bumps it. */
  datatype Store = Store(
    sessions: seq<Session>,
    transactions: seq<Transaction>,
    settings: seq<Setting>,
    nextId: Id)

  /** Default page size and start of the two listing operations. */
  const DefaultLimit: int := 50
  const DefaultOffset: int := 0

  ghost predicate SessionIdsUnique(s: seq<Session>) {
    forall i, j :: 0 <= i < j < |s| ==> s[i].id != s[j].id
  }

  ghost predicate SettingKeysUnique(s: seq<Setting>) {
    forall i, j :: 0 <= i < j < |s| ==> s[i].key != s[j].key
  }

  /** Sessions: unique ids below the id supply, each one consistent. */
  ghost predicate SessionsValid(s: seq<Session>, nextId: Id) {
    && SessionIdsUnique(s)
    && (forall i :: 0 <= i < |s| ==> s[i].id < nextId)
    && (forall i :: 0 <= i < |s| ==> Consistent(s[i]))
  }

  /** Ledger: unique ids below the id supply. */
  ghost predicate LedgerValid(t: seq<Transaction>, nextId: Id) {
    && (forall i, j :: 0 <= i < j < |t| ==> t[i].id != t[j].id)
    && (forall i :: 0 <= i < |t| ==> t[i].id < nextId)
  }

  /** Settings: unique keys, unique ids below the id supply. */
  ghost predicate SettingsValid(s: seq<Setting>, nextId: Id) {
    && SettingKeysUnique(s)
    && (forall i, j :: 0 <= i < j < |s| ==> s[i].id != s[j].id)
    && (forall i :: 0 <= i < |s| ==> s[i].id < nextId)
  }

  /** The store invariant every operation keeps. */
  ghost predicate Valid(st: Store) {
    && SessionsValid(st.sessions, st.nextId)
    && LedgerValid(st.transactions, st.nextId)
    && SettingsValid(st.settings, st.nextId)
  }

  // ---------------------------------------------------------------- settings

  /** The key `getSetting` and `setSetting` search by. */
  function SettingKey(s: Setting): string { s.key }

  /** A larger id supply keeps each part valid. */
  lemma SupplyGrows(st: Store, n: Id)
    requires st.nextId <= n
    ensures SessionsValid(st.sessions, st.nextId) ==> SessionsValid(st.sessions, n)
    ensures LedgerValid(st.transactions, st.nextId) ==> LedgerValid(st.transactions, n)
    ensures SettingsValid(st.settings, st.nextId) ==> SettingsValid(st.settings, n)
  {
  }


  /** The setting named `key`, or None. */
  function GetSetting(st: Store, key: string): (r: Option<Setting>)
    ensures r.Some? ==> r.value in st.settings && r.value.key == key
    ensures r.None? <==> forall j :: 0 <= j < |st.settings| ==> st.settings[j].key != key
  {
    match FirstIndex(st.settings, SettingKey, key)
    case None => None
    case Some(i) => Some(st.settings[i])
  }

  /** Upsert: an existing setting gets the new value in place (same id, same
      position); otherwise a new setting with a fresh id is appended. */
  function SetSetting(st: Store, key: string, value: string): (r: (Store, Setting))
    ensures r.1.key == key && r.1.value == value
    ensures GetSetting(r.0, key) == Some(r.1)
    ensures forall k :: k != key ==> GetSetting(r.0, k) == GetSetting(st, k)
    ensures GetSetting(st, key).Some? ==>
              |r.0.settings| == |st.settings| && r.1.id == GetSetting(st, key).value.id
    ensures GetSetting(st, key).None? ==> |r.0.settings| == |st.settings| + 1
    ensures r.0.sessions == st.sessions && r.0.transactions == st.transactions
  {
    match FirstIndex(st.settings, SettingKey, key)
    case Some(i) =>
      var updated := st.settings[i].(value := value);
      var st' := st.(settings := st.settings[i := updated]);
      forall k { FirstIndexSameKeys(st'.settings, st.settings, SettingKey, k); }
      (st', updated)
    case None =>
      var added := Setting(st.nextId, key, value);
      var st' := st.(settings := st.settings + [added], nextId := st.nextId + 1);
      forall k | k != key { FirstIndexAppend(st.settings, added, SettingKey, k); }
      FirstIndexAppendNew(st.settings, added, SettingKey);
      (st', added)
  }

  /** The upsert keeps the store invariant; in particular keys stay unique. */
  lemma SetSettingValid(st: Store, key: string, value: string)
    requires Valid(st)
    ensures Valid(SetSetting(st, key, value).0)
  {
    match FirstIndex(st.settings, SettingKey, key)
    case Some(i) =>
      SettingsUpdateValid(st.settings, i, value, st.nextId);
    case None =>
      var added := Setting(st.nextId, key, value);
      SupplyGrows(st, st.nextId + 1);
      SettingsAppendValid(st.settings, added, st.nextId);
  }

  lemma SettingsUpdateValid(s: seq<Setting>, i: nat, value: string, n: Id)
    requires i < |s|
    ensures SettingsValid(s, n) ==> SettingsValid(s[i := s[i].(value := value)], n)
  {
  }

  lemma SettingsAppendValid(s: seq<Setting>, x: Setting, n: Id)
    requires x.id == n
    requires forall j :: 0 <= j < |s| ==> s[j].key != x.key
    ensures SettingsValid(s, n) ==> SettingsValid(s + [x], n + 1)
  {
  }

  /** The empty store. */
  const Empty := Store([], [], [], 0)

  /** The constructor: an empty store seeded with the three default settings. */
  function Init(): (st: Store)
    ensures Valid(st)
    ensures st.sessions == [] && st.transactions == [] && |st.settings| == 3
    ensures GetSetting(st, "bankroll").Some? && GetSetting(st, "bankroll").value.value == "15000"
    ensures GetSetting(st, "stopLossLimit").Some? && GetSetting(st, "stopLossLimit").value.value == "500"
    ensures GetSetting(st, "winGoal").Some? && GetSetting(st, "winGoal").value.value == "1000"
  {
    assert Valid(Empty);
    var r1 := SetSetting(Empty, "bankroll", "15000");
    SetSettingValid(Empty, "bankroll", "15000");
    var r2 := SetSetting(r1.0, "stopLossLimit", "500");
    SetSettingValid(r1.0, "stopLossLimit", "500");
    var r3 := SetSetting(r2.0, "winGoal", "1000");
    SetSettingValid(r2.0, "winGoal", "1000");
    assert "stopLossLimit" != "bankroll" by { assert "stopLossLimit"[0] != "bankroll"[0]; }
    assert "winGoal" != "bankroll" by { assert "winGoal"[0] != "bankroll"[0]; }
    assert "winGoal" != "stopLossLimit" by { assert "winGoal"[0] != "stopLossLimit"[0]; }
    assert GetSetting(r2.0, "bankroll") == GetSetting(r1.0, "bankroll");
    assert GetSetting(r3.0, "bankroll") == GetSetting(r2.0, "bankroll");
    assert GetSetting(r3.0, "stopLossLimit") == GetSetting(r2.0, "stopLossLimit");
    r3.0
  }

  // ---------------------------------------------------------------- ledger

  /** `createBankrollTransaction`: stamps a fresh id and the server time
      `now` (the source reads the clock) and appends the entry. */
  function CreateBankrollTransaction(st: Store, input: TransactionInput, now: Time): (r: (Store, Transaction))
    ensures TransactionInput(r.1.kind, r.1.amount, r.1.description, r.1.sessionId) == input
    ensures r.1.date == now
    ensures r.0.transactions == st.transactions + [r.1]
    ensures r.0.sessions == st.sessions && r.0.settings == st.settings
    ensures Valid(st) ==> forall i :: 0 <= i < |st.transactions| ==> st.transactions[i].id != r.1.id
    ensures Valid(st) ==> Valid(r.0)
  {
    var entry := Transaction(st.nextId, input.kind, input.amount, input.description, input.sessionId, now);
    SupplyGrows(st, st.nextId + 1);
    (st.(transactions := st.transactions + [entry], nextId := st.nextId + 1), entry)
  }

  /** `deleteSession` keeps the order of the remaining sessions, which
      decides how sessions with equal dates are listed, searched and walked:
      an unknown id leaves the sessions as they were, and in a valid store
      the deleted session is cut out of its position. */
  lemma DeleteSessionOrder(st: Store, id: Id)
    ensures var r := DeleteSession(st, id);
            !r.1 ==> r.0.sessions == st.sessions
    ensures var r := DeleteSession(st, id);
            Valid(st) && r.1 ==>
              exists k :: 0 <= k < |st.sessions| && st.sessions[k].id == id
                          && r.0.sessions == st.sessions[..k] + st.sessions[k + 1..]
  {
    RemoveSessionOrder(st.sessions, id);
  }

  /** Newest first: ascending by the negated date. */
  function NewestFirstKey(t: Transaction): int { -t.date }

  /** `getBankrollTransactions(limit = 50, offset = 0)`: all entries newest
      first (stable on equal dates), then one page. */
  function GetBankrollTransactions(st: Store, limit: Option<int>, offset: Option<int>): (r: seq<Transaction>)
    ensures forall i, j :: 0 <= i < j < |r| ==> r[i].date >= r[j].date
    ensures forall i :: 0 <= i < |r| ==> r[i] in st.transactions
  {
    var sorted := SortBy(st.transactions, NewestFirstKey);
    PageAscending(sorted, limit.GetOr(DefaultLimit), offset.GetOr(DefaultOffset), NewestFirstKey);
    var r := Page(sorted, limit.GetOr(DefaultLimit), offset.GetOr(DefaultOffset));
    assert forall i :: 0 <= i < |r| ==> r[i] in multiset(st.transactions);
    r
  }

  // ---------------------------------------------------------------- sessions

  /** The key sessions are stored under. */
  function SessionId(s: Session): Id { s.id }

  /** `getSession`: the session with this id, or None. */
  function GetSession(st: Store, id: Id): (r: Option<Session>)
    ensures r.Some? ==> r.value in st.sessions && r.value.id == id
    ensures r.None? <==> forall j :: 0 <= j < |st.sessions| ==> st.sessions[j].id != id
  {
    match FirstIndex(st.sessions, SessionId, id)
    case None => None
    case Some(i) => Some(st.sessions[i])
  }

  /** Ledger text of a session's entry: "{gameType} session at {location}". */
  function SessionDescription(input: SessionInput): string {
    input.gameType + " session at " + input.location
  }

  /** `createSession`: a fresh id, profit = cash-out minus buy-in, hourly
      rate = profit per hour when hours are positive and 0 otherwise, and
      exactly one linked ledger entry of type "session" for the profit. */
  function CreateSession(st: Store, input: SessionInput, now: Time): (r: (Store, Session))
    ensures InputOf(r.1) == input && r.1.createdAt == now
    ensures r.1.profit == input.cashOut - input.buyIn
    ensures input.hours > 0.0 ==> r.1.hourlyRate * input.hours == r.1.profit
    ensures input.hours <= 0.0 ==> r.1.hourlyRate == 0.0
    ensures Consistent(r.1)
    ensures r.0.sessions == st.sessions + [r.1]
    ensures |r.0.transactions| == |st.transactions| + 1
    ensures r.0.transactions[..|st.transactions|] == st.transactions
    ensures var entry := r.0.transactions[|st.transactions|];
            && entry.kind == "session" && entry.amount == r.1.profit
            && entry.sessionId == Some(r.1.id) && entry.date == now
            && entry.description == SessionDescription(input)
    ensures r.0.settings == st.settings
    ensures Valid(st) ==> GetSession(st, r.1.id).None?
    ensures Valid(st) ==> Valid(r.0) && GetSession(r.0, r.1.id) == Some(r.1)
  {
    var id := st.nextId;
    var profit := input.cashOut - input.buyIn;
    var hourlyRate := if input.hours > 0.0 then profit / input.hours else 0.0;
    var session := Assemble(id, input, profit, hourlyRate, now);
    var st1 := st.(sessions := st.sessions + [session], nextId := st.nextId + 1);
    var posted := CreateBankrollTransaction(
      st1, TransactionInput("session", profit, SessionDescription(input), Some(id)), now);
    assert posted.0.transactions[..|st.transactions|] == st.transactions;
    FirstIndexAppendNew(st.sessions, session, SessionId);
    SessionsAppendValid(st.sessions, session, st.nextId);
    SupplyGrows(st, st1.nextId);
    (posted.0, session)
  }

  lemma SessionsAppendValid(s: seq<Session>, x: Session, n: Id)
    requires x.id == n && Consistent(x)
    ensures SessionsValid(s, n) ==> SessionsValid(s + [x], n + 1)
  {
  }

  /** The session `updateSession` stores for a stored session and a patch.
      Supplied fields overwrite the stored ones; profit is recomputed from
      whichever of cash-out and buy-in were supplied (the stored value
      standing in for the other) and kept when neither was; the hourly rate
      is recomputed when any of buy-in, cash-out or hours was supplied. */
  function MergeSession(prev: Session, patch: SessionPatch): (next: Session)
    ensures next.id == prev.id && next.createdAt == prev.createdAt
    ensures InputOf(next) == ApplyPatch(InputOf(prev), patch)
    ensures Consistent(prev) ==> Consistent(next)
    ensures patch.buyIn.Some? || patch.cashOut.Some? ==> next.profit == next.cashOut - next.buyIn
    ensures !TouchesMoney(patch) ==> next.profit == prev.profit && next.hourlyRate == prev.hourlyRate
  {
    var profit :=
      if patch.cashOut.Some? && patch.buyIn.Some? then patch.cashOut.value - patch.buyIn.value
      else if patch.cashOut.Some? then patch.cashOut.value - prev.buyIn
      else if patch.buyIn.Some? then prev.cashOut - patch.buyIn.value
      else prev.profit;
    var hourlyRate :=
      if TouchesMoney(patch) then
        var hours := patch.hours.GetOr(prev.hours);
        if hours > 0.0 then profit / hours else 0.0
      else prev.hourlyRate;
    Assemble(prev.id, ApplyPatch(InputOf(prev), patch), profit, hourlyRate, prev.createdAt)
  }

  /** `updateSession`: an unknown id returns None and changes nothing;
      otherwise the merged session replaces the stored one in place.  The
      ledger, in particular the entry posted when the session was created,
      is never touched. */
  function UpdateSession(st: Store, id: Id, patch: SessionPatch): (r: (Store, Option<Session>))
    ensures GetSession(st, id).None? ==> r == (st, None)
    ensures GetSession(st, id).Some? ==>
              r.1 == Some(MergeSession(GetSession(st, id).value, patch)) && GetSession(r.0, id) == r.1
    ensures |r.0.sessions| == |st.sessions|
    ensures forall j :: 0 <= j < |st.sessions| && st.sessions[j].id != id ==> r.0.sessions[j] == st.sessions[j]
    ensures r.0.transactions == st.transactions && r.0.settings == st.settings && r.0.nextId == st.nextId
  {
    match FirstIndex(st.sessions, SessionId, id)
    case None => (st, None)
    case Some(i) =>
      var next := MergeSession(st.sessions[i], patch);
      var st' := st.(sessions := st.sessions[i := next]);
      FirstIndexSameKeys(st'.sessions, st.sessions, SessionId, id);
      (st', Some(next))
  }

  /** An update keeps the store invariant: ids stay unique and the merged
      session is consistent again. */
  lemma UpdateSessionValid(st: Store, id: Id, patch: SessionPatch)
    requires Valid(st)
    ensures Valid(UpdateSession(st, id, patch).0)
  {
    match FirstIndex(st.sessions, SessionId, id)
    case None =>
    case Some(i) =>
      assert Consistent(st.sessions[i]);
      SessionsReplaceValid(st.sessions, i, MergeSession(st.sessions[i], patch), st.nextId);
  }

  lemma SessionsReplaceValid(s: seq<Session>, i: nat, x: Session, n: Id)
    requires i < |s| && x.id == s[i].id && Consistent(x)
    ensures SessionsValid(s, n) ==> SessionsValid(s[i := x], n)
  {
  }

  /** The sessions of `s` without those carrying `id`, order kept. */
  function RemoveSession(s: seq<Session>, id: Id): (r: seq<Session>)
    ensures |r| <= |s|
  {
    if |s| == 0 then []
    else if s[0].id == id then RemoveSession(s[1..], id)
    else [s[0]] + RemoveSession(s[1..], id)
  }

  /** Removal keeps exactly the sessions with other ids. */
  lemma {:induction false} RemoveSessionMembers(s: seq<Session>, id: Id)
    ensures forall i :: 0 <= i < |RemoveSession(s, id)| ==>
              RemoveSession(s, id)[i] in s && RemoveSession(s, id)[i].id != id
    ensures forall i :: 0 <= i < |s| && s[i].id != id ==> s[i] in RemoveSession(s, id)
  {
    if |s| > 0 {
      RemoveSessionMembers(s[1..], id);
      var rest := RemoveSession(s[1..], id);
      assert s == [s[0]] + s[1..];
      var r := RemoveSession(s, id);
      forall i | 0 <= i < |r| ensures r[i] in s && r[i].id != id {
        if s[0].id == id {
          assert r[i] == rest[i];
        } else if i > 0 {
          assert r[i] == rest[i - 1];
        }
      }
      forall i | 0 <= i < |s| && s[i].id != id ensures s[i] in r {
        if i > 0 {
          assert s[i] == s[1..][i - 1];
        }
      }
    }
  }

  /** With unique ids, removal keeps ids unique. */
  lemma {:induction false} RemoveSessionUnique(s: seq<Session>, id: Id)
    requires SessionIdsUnique(s)
    ensures SessionIdsUnique(RemoveSession(s, id))
  {
    if |s| > 0 {
      var rest := RemoveSession(s[1..], id);
      RemoveSessionUnique(s[1..], id);
      if s[0].id != id {
        var r := [s[0]] + rest;
        assert RemoveSession(s, id) == r;
        RemoveSessionMembers(s[1..], id);
        forall j | 0 < j < |r| ensures r[0].id != r[j].id {
          assert r[j] == rest[j - 1];
          HeadIdFresh(s, r[j]);
        }
        forall i, j | 0 < i < j < |r| ensures r[i].id != r[j].id {
          assert r[i] == rest[i - 1] && r[j] == rest[j - 1];
        }
      }
    }
  }

  /** With unique ids, no later session shares the head's id. */
  lemma HeadIdFresh(s: seq<Session>, x: Session)
    requires SessionIdsUnique(s) && |s| > 0 && x in s[1..]
    ensures x.id != s[0].id
  {
    var m :| 0 <= m < |s| - 1 && s[1..][m] == x;
    assert s[m + 1] == x;
  }

  /** With unique ids, removal drops exactly one session when the id was
      present and none otherwise. */
  lemma {:induction false} RemoveSessionCount(s: seq<Session>, id: Id)
    requires SessionIdsUnique(s)
    ensures |RemoveSession(s, id)| == |s| - (if FirstIndex(s, SessionId, id).Some? then 1 else 0)
  {
    if |s| > 0 {
      RemoveSessionCount(s[1..], id);
      if s[0].id == id {
        assert FirstIndex(s[1..], SessionId, id).None?;
      }
    }
  }

  lemma RemoveSessionCountIfUnique(s: seq<Session>, id: Id)
    ensures SessionIdsUnique(s) ==> SessionIdsUnique(RemoveSession(s, id))
    ensures SessionIdsUnique(s) ==>
              |RemoveSession(s, id)| == |s| - (if FirstIndex(s, SessionId, id).Some? then 1 else 0)
  {
    if SessionIdsUnique(s) {
      RemoveSessionUnique(s, id);
      RemoveSessionCount(s, id);
    }
  }

  /** Removing the sessions with one id leaves the lookup of every other id
      as it was. */
  lemma {:induction false} RemoveSessionLookup(s: seq<Session>, id: Id, other: Id)
    requires other != id
    ensures var r := RemoveSession(s, id);
            match FirstIndex(r, SessionId, other)
            case None => FirstIndex(s, SessionId, other).None?
            case Some(k) => FirstIndex(s, SessionId, other).Some? && r[k] == s[FirstIndex(s, SessionId, other).value]
  {
    if |s| > 0 {
      RemoveSessionLookup(s[1..], id, other);
      var rest := RemoveSession(s[1..], id);
      if s[0].id == id {
        assert RemoveSession(s, id) == rest;
        FirstIndexShift(s, SessionId, other);
      } else if s[0].id != other {
        assert RemoveSession(s, id) == [s[0]] + rest;
        FirstIndexShift(s, SessionId, other);
        FirstIndexShift([s[0]] + rest, SessionId, other);
        assert ([s[0]] + rest)[1..] == rest;
      } else {
        assert RemoveSession(s, id) == [s[0]] + rest;
      }
    }
  }

  /** Removing an id no session carries changes nothing. */
  lemma {:induction false} RemoveSessionAbsent(s: seq<Session>, id: Id)
    requires forall j :: 0 <= j < |s| ==> s[j].id != id
    ensures RemoveSession(s, id) == s
  {
    if |s| > 0 {
      RemoveSessionAbsent(s[1..], id);
      assert s == [s[0]] + s[1..];
    }
  }

  /** With unique ids, removing the id of the session at position k cuts
      exactly that session out and keeps the others in their order, as
      `Map.delete` keeps insertion order. */
  lemma {:induction false} RemoveSessionCut(s: seq<Session>, id: Id, k: nat)
    requires SessionIdsUnique(s)
    requires k < |s| && s[k].id == id
    ensures RemoveSession(s, id) == s[..k] + s[k + 1..]
  {
    TailIdsUnique(s);
    if k == 0 {
      RemoveSessionAbsent(s[1..], id);
      assert s[..0] + s[1..] == s[1..];
    } else {
      assert s[0].id != id;
      RemoveSessionCut(s[1..], id, k - 1);
      ConsCut(s, k - 1);
    }
  }

  /** Past the head, ids stay unique and none repeats the head's. */
  lemma TailIdsUnique(s: seq<Session>)
    requires SessionIdsUnique(s) && |s| > 0
    ensures SessionIdsUnique(s[1..])
    ensures forall j :: 0 <= j < |s| - 1 ==> s[1..][j].id != s[0].id
  {
    var tail := s[1..];
    assert forall j :: 0 <= j < |tail| ==> tail[j] == s[j + 1];
  }

  /** Cutting position k out of the tail and putting the head back is
      cutting position k + 1 out of the whole. */
  lemma ConsCut(s: seq<Session>, k: nat)
    requires k + 1 < |s|
    ensures [s[0]] + (s[1..][..k] + s[1..][k + 1..]) == s[..k + 1] + s[k + 2..]
  {
    assert [s[0]] + s[1..][..k] == s[..k + 1];
    assert s[1..][k + 1..] == s[k + 2..];
  }

  /** Removal keeps the order of the remaining sessions: an absent id
      changes nothing, and with unique ids exactly the one match is cut out. */
  lemma RemoveSessionOrder(s: seq<Session>, id: Id)
    ensures (forall j :: 0 <= j < |s| ==> s[j].id != id) ==> RemoveSession(s, id) == s
    ensures SessionIdsUnique(s) && (exists j :: 0 <= j < |s| && s[j].id == id) ==>
              exists k :: 0 <= k < |s| && s[k].id == id && RemoveSession(s, id) == s[..k] + s[k + 1..]
  {
    if forall j :: 0 <= j < |s| ==> s[j].id != id {
      RemoveSessionAbsent(s, id);
    }
    if SessionIdsUnique(s) && exists j :: 0 <= j < |s| && s[j].id == id {
      var k :| 0 <= k < |s| && s[k].id == id;
      RemoveSessionCut(s, id, k);
    }
  }

  /** `deleteSession`: removes the session and reports whether it existed.
      Ledger entries are not cascaded: one that pointed at the session keeps
      its now dangling `sessionId`. */
  function DeleteSession(st: Store, id: Id): (r: (Store, bool))
    ensures r.1 <==> exists j :: 0 <= j < |st.sessions| && st.sessions[j].id == id
    ensures GetSession(r.0, id).None?
    ensures forall other :: other != id ==> GetSession(r.0, other) == GetSession(st, other)
    ensures forall i :: 0 <= i < |st.sessions| && st.sessions[i].id != id ==> st.sessions[i] in r.0.sessions
    ensures r.0.transactions == st.transactions && r.0.settings == st.settings
    ensures Valid(st) ==> Valid(r.0) && |r.0.sessions| == |st.sessions| - (if r.1 then 1 else 0)
  {
    var st' := st.(sessions := RemoveSession(st.sessions, id));
    forall other | other != id { RemoveSessionLookup(st.sessions, id, other); }
    RemoveSessionMembers(st.sessions, id);
    RemoveSessionCountIfUnique(st.sessions, id);
    (st', GetSession(st, id).Some?)
  }

  /** Newest first: ascending by the negated date. */
  function SessionNewestFirstKey(s: Session): int { -s.date }

  /** All sessions, newest first; equal dates keep insertion order. */
  function NewestFirst(s: seq<Session>): (r: seq<Session>)
    ensures multiset(r) == multiset(s)
    ensures forall i, j :: 0 <= i < j < |r| ==> r[i].date >= r[j].date
  {
    SortBy(s, SessionNewestFirstKey)
  }

  /** `getSessions(limit = 50, offset = 0)`: one page of the newest-first list. */
  function GetSessions(st: Store, limit: Option<int>, offset: Option<int>): (r: seq<Session>)
    ensures forall i, j :: 0 <= i < j < |r| ==> r[i].date >= r[j].date
    ensures forall i :: 0 <= i < |r| ==> r[i] in st.sessions
  {
    var sorted := NewestFirst(st.sessions);
    PageAscending(sorted, limit.GetOr(DefaultLimit), offset.GetOr(DefaultOffset), SessionNewestFirstKey);
    var r := Page(sorted, limit.GetOr(DefaultLimit), offset.GetOr(DefaultOffset));
    assert forall i :: 0 <= i < |r| ==> r[i] in multiset(st.sessions);
    r
  }

  /** A page of the session listing holds the records at positions
      offset .. offset+limit-1 of the newest-first order that exist (50 and 0
      when not given): max(0, min(limit, n - offset)) of them, so an offset
      past the end yields an empty page. */
  lemma GetSessionsPage(st: Store, limit: Option<int>, offset: Option<int>)
    requires limit.GetOr(DefaultLimit) >= 0 && offset.GetOr(DefaultOffset) >= 0
    ensures var l, o, n := limit.GetOr(DefaultLimit), offset.GetOr(DefaultOffset), |st.sessions|;
            var r := GetSessions(st, limit, offset);
            && |r| == (if o >= n then 0 else if l < n - o then l else n - o)
            && forall k :: 0 <= k < |r| ==> r[k] == NewestFirst(st.sessions)[o + k]
  {
    PageShape(NewestFirst(st.sessions), limit.GetOr(DefaultLimit), offset.GetOr(DefaultOffset));
  }

  /** The same for the ledger listing. */
  lemma GetBankrollTransactionsPage(st: Store, limit: Option<int>, offset: Option<int>)
    requires limit.GetOr(DefaultLimit) >= 0 && offset.GetOr(DefaultOffset) >= 0
    ensures var l, o, n := limit.GetOr(DefaultLimit), offset.GetOr(DefaultOffset), |st.transactions|;
            var r := GetBankrollTransactions(st, limit, offset);
            && |r| == (if o >= n then 0 else if l < n - o then l else n - o)
            && forall k :: 0 <= k < |r| ==> r[k] == SortBy(st.transactions, NewestFirstKey)[o + k]
  {
    PageShape(SortBy(st.transactions, NewestFirstKey), limit.GetOr(DefaultLimit), offset.GetOr(DefaultOffset));
  }

  /** The newest-first order is stable: sessions with the same date keep the
      order in which they were inserted. */
  lemma NewestFirstStable(s: seq<Session>, date: Time)
    ensures KeyClass(NewestFirst(s), SessionNewestFirstKey, -date) == KeyClass(s, SessionNewestFirstKey, -date)
  {
    SortByStable(s, SessionNewestFirstKey, -date);
  }
}
