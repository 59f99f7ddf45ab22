/**
  The scar case store: the bot's in-memory `data` dictionary and what the
  slash commands do to it. The global counter `case_id` numbers every case
  ever recorded; `users` maps each member's key (`str(member.id)`) to the
  ordered list of that member's case records; `config` holds the log
  channel and the role names per level.
 */
module Store {
  import opened Wrappers
  import opened Decimal
  import opened CaseIds
  import Tier
  import Ranking

  /** One scar record, as `ghiseo` appends it: `{case, reason, by, time}`. */
  datatype Case = Case(id: string, reason: string, recordedBy: string, time: string)

  /** What a command reports back to the member who issued it. */
  datatype Reply =
    | NotAuthorized
    | Recorded(id: string, total: nat, role: Option<string>, color: int)
    | NoScars
    | Removed(remaining: nat, role: Option<string>)
    | Cleared(role: Option<string>)
    | LogChannelSet(channel: int)

  /** What `xemseo` shows a member about themself. */
  datatype History = Clean | Listing(cases: seq<Case>, total: nat)

  /** The dictionary key of a member: `str(member.id)`. */
  function UserKey(memberId: nat): (key: string)
    ensures |key| >= 1 && AllDigits(key) && Value(key) == memberId
  {
    ValueOfDigits(memberId);
    Digits(memberId)
  }

  /** Different members never share a case list. */
  lemma UserKeyInjective(a: nat, b: nat)
    ensures UserKey(a) == UserKey(b) <==> a == b
  {
    DigitsInjective(a, b);
  }

  /** The member's list, or the empty list `get_user` would create. */
  function Lookup(users: map<string, seq<Case>>, key: string): seq<Case> {
    if key in users then users[key] else []
  }

  /** Every stored case carries an id that the counter has handed out. */
  ghost predicate IdsIssued(users: map<string, seq<Case>>, issued: seq<string>) {
    forall k, i :: k in users && 0 <= i < |users[k]| ==> users[k][i].id in issued
  }

  /** No two stored cases, of the same member or of two members, share an id. */
  ghost predicate IdsDistinct(users: map<string, seq<Case>>) {
    forall k1, i1, k2, i2 ::
      (k1 in users && k2 in users && 0 <= i1 < |users[k1]| && 0 <= i2 < |users[k2]| &&
       users[k1][i1].id == users[k2][i2].id) ==> k1 == k2 && i1 == i2
  }

  /** A position in the store: a member's key and an index into that member's list. */
  datatype Slot = Slot(key: string, index: nat)

  /** `located` names, for each stored id, the one position that holds it. */
  ghost predicate IdsLocated(users: map<string, seq<Case>>, located: map<string, Slot>) {
    forall k, i :: k in users && 0 <= i < |users[k]| ==>
      users[k][i].id in located && located[users[k][i].id] == Slot(k, i)
  }

  /** Ids that each have one recorded position are unique across the whole store. */
  lemma LocatedIdsDistinct(users: map<string, seq<Case>>, located: map<string, Slot>)
    requires IdsLocated(users, located)
    ensures IdsDistinct(users)
  {
    forall k1, i1, k2, i2 |
      k1 in users && k2 in users && 0 <= i1 < |users[k1]| && 0 <= i2 < |users[k2]| &&
      users[k1][i1].id == users[k2][i2].id
      ensures k1 == k2 && i1 == i2
    {
      assert located[users[k1][i1].id] == Slot(k1, i1);
      assert located[users[k2][i2].id] == Slot(k2, i2);
    }
  }

  /** Creating a missing key appends it to the insertion order; updating a present key keeps its place. */
  lemma AddKeyKeepsOrder(order: seq<string>, users: map<string, seq<Case>>, key: string, s: seq<Case>)
    requires Ranking.KeysInOrder(order, users)
    ensures Ranking.KeysInOrder(if key in users then order else order + [key], users[key := s])
  {
  }

  /** Cutting one member's list back to a prefix (pop, reset) keeps every remaining id in its place. */
  lemma TruncateKeepsIds(users: map<string, seq<Case>>, located: map<string, Slot>, key: string, s: seq<Case>)
    requires IdsLocated(users, located)
    requires s <= Lookup(users, key)
    ensures IdsLocated(users[key := s], located)
  {
    var u := users[key := s];
    forall k, i | k in u && 0 <= i < |u[k]|
      ensures k in users && i < |users[k]| && u[k][i] == users[k][i]
    {
    }
  }

  /** Appending a case whose id is stored nowhere keeps every id in its place, the new one last in its list. */
  lemma AppendFreshKeepsIds(users: map<string, seq<Case>>, located: map<string, Slot>, key: string, c: Case)
    requires IdsLocated(users, located)
    requires c.id !in located
    ensures IdsLocated(users[key := Lookup(users, key) + [c]], located[c.id := Slot(key, |Lookup(users, key)|)])
  {
    var u := users[key := Lookup(users, key) + [c]];
    forall k, i | k in u && 0 <= i < |u[k]|
      ensures (k == key && i == |Lookup(users, key)| && u[k][i] == c)
           || (k in users && i < |users[k]| && u[k][i] == users[k][i])
    {
    }
  }

  /** The store's invariant, on its abstract values: the counter, the ids it handed out, and the lists. */
  ghost predicate Inv(caseId: nat, issued: seq<string>, located: map<string, Slot>,
                      order: seq<string>, users: map<string, seq<Case>>) {
    && issued == IssuedIds(caseId)
    && Ranking.KeysInOrder(order, users)
    && IdsLocated(users, located)
    && (forall id :: id in located ==> id in issued)
  }

  /** Raising the counter keeps the invariant; the new id is neither handed out before nor stored. */
  lemma InvNext(n: nat, issued: seq<string>, located: map<string, Slot>, order: seq<string>, users: map<string, seq<Case>>)
    requires Inv(n, issued, located, order, users)
    ensures FormatCaseId(n + 1) !in issued && FormatCaseId(n + 1) !in located
    ensures Inv(n + 1, issued + [FormatCaseId(n + 1)], located, order, users)
  {
    NextIdIsFresh(n);
  }

  /** Appending a case whose id was handed out but is not stored keeps the invariant. */
  lemma InvAppend(n: nat, issued: seq<string>, located: map<string, Slot>, order: seq<string>,
                  users: map<string, seq<Case>>, key: string, c: Case)
    requires Inv(n, issued, located, order, users) && key in users
    requires c.id in issued && c.id !in located
    ensures Inv(n, issued, located[c.id := Slot(key, |users[key]|)], order, users[key := users[key] + [c]])
  {
    AppendFreshKeepsIds(users, located, key, c);
    AddKeyKeepsOrder(order, users, key, users[key] + [c]);
  }

  /** Cutting a member's list back to a prefix of itself (creating it empty when missing) keeps the invariant. */
  lemma InvTruncate(n: nat, issued: seq<string>, located: map<string, Slot>, order: seq<string>,
                    users: map<string, seq<Case>>, key: string, s: seq<Case>)
    requires Inv(n, issued, located, order, users)
    requires s <= Lookup(users, key)
    ensures Inv(n, issued, located, if key in users then order else order + [key], users[key := s])
  {
    TruncateKeepsIds(users, located, key, s);
    AddKeyKeepsOrder(order, users, key, s);
  }

  /** Writing a key twice leaves only the second write. */
  lemma UpdateTwice<K, V>(m: map<K, V>, k: K, a: V, b: V)
    ensures m[k := a][k := b] == m[k := b]
  {
  }

  class CaseStore {
    var caseId: nat
    var users: map<string, seq<Case>>
    /** The keys of `users` in insertion order, which `topseo` uses to break ties. */
    var order: seq<string>
    var logChannel: Option<int>
    var scarRoles: map<string, string>
    /** Every id handed out so far, oldest first. */
    ghost var issued: seq<string>
    /** Where each stored id sits, so that ids are unique across all members. */
    ghost var located: map<string, Slot>

    ghost predicate Valid()
      reads this
    {
      Inv(caseId, issued, located, order, users)
    }

    /** No two stored cases share an id, however many cases were undone or reset. */
    lemma StoredIdsUnique()
      requires Valid()
      ensures IdsDistinct(users)
      ensures IdsIssued(users, issued)
    {
      LocatedIdsDistinct(users, located);
      forall k, i | k in users && 0 <= i < |users[k]| ensures users[k][i].id in issued {
        assert users[k][i].id in located;
      }
    }

    /** The state `load` returns when there is no data file yet. */
    constructor ()
      ensures Valid()
      ensures caseId == 0 && users == map[] && order == []
      ensures logChannel == None && scarRoles == Tier.DefaultScarRoles
    {
      caseId := 0;
      users := map[];
      order := [];
      logChannel := None;
      scarRoles := Tier.DefaultScarRoles;
      issued := [];
      located := map[];
    }

    /** `next_case_id`: raises the counter by one and returns the new value as an id never handed out before. */
    method NextCaseId() returns (id: string)
      requires Valid()
      modifies this
      ensures Valid()
      ensures caseId == old(caseId) + 1 && id == FormatCaseId(caseId)
      ensures id !in old(issued) && issued == old(issued) + [id] && id !in located
      ensures users == old(users) && order == old(order) && located == old(located)
      ensures logChannel == old(logChannel) && scarRoles == old(scarRoles)
    {
      InvNext(caseId, issued, located, order, users);
      caseId := caseId + 1;
      id := FormatCaseId(caseId);
      issued := issued + [id];
    }

    /** `get_user`: the member's list, created empty (and added last in insertion order) when missing. */
    method GetUser(memberId: nat) returns (cases: seq<Case>)
      requires Valid()
      modifies this
      ensures Valid()
      ensures var key := UserKey(memberId);
        && cases == Lookup(old(users), key)
        && users == old(users)[key := cases]
        && order == if key in old(users) then old(order) else old(order) + [key]
      ensures caseId == old(caseId) && issued == old(issued)
      ensures logChannel == old(logChannel) && scarRoles == old(scarRoles)
    {
      var key := UserKey(memberId);
      if key !in users {
        InvTruncate(caseId, issued, located, order, users, key, []);
        users := users[key := []];
        order := order + [key];
      }
      cases := users[key];
    }

    /** `ghiseo`: an admin appends one case with a fresh id; everyone else changes nothing. */
    method Record(isAdmin: bool, memberId: nat, reason: string, recordedBy: string, time: string) returns (reply: Reply)
      requires Valid()
      modifies this
      ensures Valid()
      ensures !isAdmin ==> reply == NotAuthorized && unchanged(this)
      ensures isAdmin ==>
        var key := UserKey(memberId);
        var before := Lookup(old(users), key);
        var c := Case(FormatCaseId(caseId), reason, recordedBy, time);
        && caseId == old(caseId) + 1
        && c.id !in old(issued) && issued == old(issued) + [c.id]
        && users == old(users)[key := before + [c]]
        && order == (if key in old(users) then old(order) else old(order) + [key])
        && reply == Recorded(c.id, |before| + 1, Tier.RoleFor(scarRoles, |before| + 1), Tier.Color(|before| + 1))
      ensures logChannel == old(logChannel) && scarRoles == old(scarRoles)
    {
      if !isAdmin {
        return NotAuthorized;
      }
      var key := UserKey(memberId);
      var u := GetUser(memberId);
      var id := NextCaseId();
      var c := Case(id, reason, recordedBy, time);
      AppendCase(key, c);
      UpdateTwice(old(users), key, u, u + [c]);
      var count := |u| + 1;
      reply := Recorded(c.id, count, Tier.RoleFor(scarRoles, count), Tier.Color(count));
    }

    /** `u.append(...)`: adds a case, whose id was handed out and is stored nowhere, at the end of one member's list. */
    method AppendCase(key: string, c: Case)
      requires Valid() && key in users
      requires c.id in issued && c.id !in located
      modifies this
      ensures Valid()
      ensures users == old(users)[key := old(users)[key] + [c]]
      ensures caseId == old(caseId) && issued == old(issued) && order == old(order)
      ensures logChannel == old(logChannel) && scarRoles == old(scarRoles)
    {
      InvAppend(caseId, issued, located, order, users, key, c);
      located := located[c.id := Slot(key, |users[key]|)];
      users := users[key := users[key] + [c]];
    }

    /** `goiseo`: an admin removes the member's last case; an empty list is reported and left empty. */
    method PopLast(isAdmin: bool, memberId: nat) returns (reply: Reply)
      requires Valid()
      modifies this
      ensures Valid()
      ensures !isAdmin ==> reply == NotAuthorized && unchanged(this)
      ensures isAdmin ==>
        var key := UserKey(memberId);
        var before := Lookup(old(users), key);
        && order == (if key in old(users) then old(order) else old(order) + [key])
        && (before == [] ==> reply == NoScars && users == old(users)[key := []])
        && (before != [] ==>
              && users == old(users)[key := before[..|before| - 1]]
              && reply == Removed(|before| - 1, Tier.RoleFor(scarRoles, |before| - 1)))
      ensures caseId == old(caseId) && issued == old(issued)
      ensures logChannel == old(logChannel) && scarRoles == old(scarRoles)
    {
      if !isAdmin {
        return NotAuthorized;
      }
      var key := UserKey(memberId);
      var u := GetUser(memberId);
      if u == [] {
        return NoScars;
      }
      InvTruncate(caseId, issued, located, order, users, key, u[..|u| - 1]);
      UpdateTwice(old(users), key, u, u[..|u| - 1]);
      u := u[..|u| - 1];
      users := users[key := u];
      reply := Removed(|u|, Tier.RoleFor(scarRoles, |u|));
    }

    /** `resetseo`: an admin replaces the member's list by the empty list; the counter stays put. */
    method Reset(isAdmin: bool, memberId: nat) returns (reply: Reply)
      requires Valid()
      modifies this
      ensures Valid()
      ensures !isAdmin ==> reply == NotAuthorized && unchanged(this)
      ensures isAdmin ==>
        var key := UserKey(memberId);
        && users == old(users)[key := []]
        && order == (if key in old(users) then old(order) else old(order) + [key])
        && reply == Cleared(None)
      ensures caseId == old(caseId) && issued == old(issued)
      ensures logChannel == old(logChannel) && scarRoles == old(scarRoles)
    {
      if !isAdmin {
        return NotAuthorized;
      }
      var key := UserKey(memberId);
      InvTruncate(caseId, issued, located, order, users, key, []);
      if key !in users {
        order := order + [key];
      }
      users := users[key := []];
      reply := Cleared(Tier.RoleFor(scarRoles, 0));
    }

    /** `datkenhlog`: an admin sets the log channel; nothing else changes. */
    method SetLogChannel(isAdmin: bool, channel: int) returns (reply: Reply)
      requires Valid()
      modifies this
      ensures Valid()
      ensures !isAdmin ==> reply == NotAuthorized && unchanged(this)
      ensures isAdmin ==> logChannel == Some(channel) && reply == LogChannelSet(channel)
      ensures caseId == old(caseId) && issued == old(issued)
      ensures users == old(users) && order == old(order) && scarRoles == old(scarRoles)
    {
      if !isAdmin {
        return NotAuthorized;
      }
      logChannel := Some(channel);
      reply := LogChannelSet(channel);
    }

    /** `xemseo`: the caller's own cases in recording order, or the clean notice when there are none. */
    method ViewOwn(memberId: nat) returns (view: History)
      requires Valid()
      modifies this
      ensures Valid()
      ensures var key := UserKey(memberId);
        var cases := Lookup(old(users), key);
        && view == (if cases == [] then Clean else Listing(cases, |cases|))
        && users == old(users)[key := cases]
        && order == (if key in old(users) then old(order) else old(order) + [key])
      ensures caseId == old(caseId) && issued == old(issued)
      ensures logChannel == old(logChannel) && scarRoles == old(scarRoles)
    {
      var u := GetUser(memberId);
      if u == [] {
        return Clean;
      }
      view := Listing(u, |u|);
    }

    /** `topseo`: at most ten members with scars, most scars first, each with their actual count. */
    method TopBoard() returns (board: seq<Ranking.Entry>)
      requires Valid()
      ensures board == Ranking.Top10(order, users)
      ensures forall e :: e in board ==> e.uid in users && e.count == |users[e.uid]| > 0
    {
      board := Ranking.Top10(order, users);
      forall e | e in board
        ensures e.uid in users && e.count == |users[e.uid]| > 0
      {
        assert e in multiset(Ranking.Items(order, users));
      }
    }
  }

  /** The reply to the very first case of a fresh store with the default roles. */
  lemma FirstCaseReply()
    ensures FormatCaseId(1) == "#0001"
    ensures Tier.RoleFor(Tier.DefaultScarRoles, 1) == Some("Sẹo 1")
    ensures Tier.Color(1) == 0x8B0000
  {
    assert Digits(1) == "1";
    assert FormatCaseId(1) == "#" + ZeroPad("1", Width) == "#" + ("000" + "1");
    assert Tier.Level(1) == Some(1) && Tier.DefaultScarRoles["1"] == "Sẹo 1";
  }

  /** Undoing a case does not free its id: the case recorded after the undo gets a new number. */
  method UndoThenRecord(memberId: nat) returns (first: Reply, second: Reply)
    ensures first == Recorded("#0001", 1, Some("Sẹo 1"), 0x8B0000)
    ensures second.Recorded? && second.id == FormatCaseId(2) && second.id != first.id && second.total == 1
  {
    var store := new CaseStore();
    assert store.users == map[] && store.scarRoles == Tier.DefaultScarRoles;
    first := store.Record(true, memberId, "late", "admin", "01/01/2025 10:00");
    assert first == Recorded(FormatCaseId(1), 1, Tier.RoleFor(Tier.DefaultScarRoles, 1), Tier.Color(1));
    FirstCaseReply();
    ghost var key := UserKey(memberId);
    assert store.caseId == 1 && |store.users[key]| == 1;
    var undone := store.PopLast(true, memberId);
    assert store.caseId == 1 && store.users[key] == [];
    second := store.Record(true, memberId, "late", "admin", "01/01/2025 10:05");
    assert second.id == FormatCaseId(2) && second.total == 1;
    FormatCaseIdInjective(1, 2);
    assert first.id == FormatCaseId(1);
  }

  /** After a reset the member has no cases left, the counter keeps its value, and a caller without the permission changes nothing. */
  method ResetThenDenied(memberId: nat) returns (denied: Reply, view: History, counter: nat)
    ensures denied == NotAuthorized && view == Clean && counter == 1
  {
    var store := new CaseStore();
    var r := store.Record(true, memberId, "late", "admin", "01/01/2025 10:00");
    r := store.Reset(true, memberId);
    denied := store.Record(false, memberId, "late", "guest", "01/01/2025 10:06");
    view := store.ViewOwn(memberId);
    counter := store.caseId;
  }
}
