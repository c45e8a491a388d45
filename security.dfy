/** The security object of a database (`security.go`): two groups, admins
    and members, each holding a list of user names and a list of roles.
    `DefaultSecurity` edits one of the four lists in place; the
    `DatabaseSecurity` helpers fetch the stored object into the receiver,
    edit it, and store it back. */
module Security {

  import opened Wrappers
  import opened Http
  import Database

  // ---------------------------------------------------------------------
  // Editing one list

  predicate Distinct(list: seq<string>)
  {
    forall i, j :: 0 <= i < j < |list| ==> list[i] != list[j]
  }

  /** The position of the first occurrence of `item`. */
  function FirstIndex(list: seq<string>, item: string): (i: nat)
    requires item in list
    ensures i < |list| && list[i] == item && item !in list[..i]
  {
    if list[0] == item then 0
    else
      var j := FirstIndex(list[1..], item);
      assert list[..j + 1] == [list[0]] + list[1..][..j];
      j + 1
  }

  /** The first occurrence is the only position with `item` and no
      `item` before it. */
  lemma FirstIndexUnique(list: seq<string>, item: string, i: int)
    requires 0 <= i < |list| && list[i] == item && item !in list[..i]
    ensures FirstIndex(list, item) == i
  {
  }

  /** The list one `Update*` call leaves: a present item is dropped (its
      first occurrence) when deleting and kept when adding; an absent item
      is appended, whether adding or deleting, because the search loop
      falls through to the `append`. */
  function Edited(list: seq<string>, item: string, delete: bool): seq<string>
  {
    if item !in list then list + [item]
    else if delete then
      var i := FirstIndex(list, item);
      list[..i] + list[i + 1..]
    else list
  }

  /** The error one `Update*` call returns: only adding a present item fails. */
  function EditError(list: seq<string>, item: string, delete: bool, duplicate: Error): Option<Error>
  {
    if item in list && !delete then Some(duplicate) else None
  }

  /** The search loop shared by the four `Update*` methods. */
  method EditList(list: seq<string>, item: string, delete: bool, duplicate: Error)
    returns (edited: seq<string>, err: Option<Error>)
    ensures edited == Edited(list, item, delete)
    ensures err == EditError(list, item, delete, duplicate)
  {
    var i := 0;
    while i < |list|
      invariant 0 <= i <= |list|
      invariant item !in list[..i]
    {
      if list[i] == item {
        FirstIndexUnique(list, item, i);
        if delete {
          return list[..i] + list[i + 1..], None;
        }
        return list, Some(duplicate);
      }
      assert list[..i + 1] == list[..i] + [list[i]];
      i := i + 1;
    }
    assert list[..i] == list;
    return list + [item], None;
  }

  /** An absent item ends up last, whether it was added or deleted; on an
      empty list it is the whole list. */
  lemma AbsentIsAppended(list: seq<string>, item: string, delete: bool)
    requires item !in list
    ensures Edited(list, item, delete) == list + [item]
    ensures EditError(list, item, delete, LoginExists).None?
    ensures list == [] ==> Edited(list, item, delete) == [item]
  {
  }

  /** Adding a present item is refused and changes nothing. */
  lemma PresentAddRefused(list: seq<string>, item: string, duplicate: Error)
    requires item in list
    ensures Edited(list, item, false) == list
    ensures EditError(list, item, false, duplicate) == Some(duplicate)
  {
  }

  /** After an add the item is in the list, and a list without duplicates
      still has none. */
  lemma {:induction false} AddKeepsDistinct(list: seq<string>, item: string)
    requires Distinct(list)
    ensures item in Edited(list, item, false)
    ensures Distinct(Edited(list, item, false))
  {
    if item !in list {
      var r := list + [item];
      forall i, j | 0 <= i < j < |r|
        ensures r[i] != r[j]
      {
        if j == |list| {
          assert r[i] == list[i];
        }
      }
    }
  }

  /** Deleting a present item removes exactly one copy of it and keeps the
      order of the rest: what is left is the list before the first copy,
      then the list after it. */
  lemma DeleteRemovesOne(list: seq<string>, item: string)
    requires item in list
    ensures |Edited(list, item, true)| == |list| - 1
    ensures multiset(Edited(list, item, true)) == multiset(list) - multiset{item}
    ensures exists i ::
      && 0 <= i < |list| && list[i] == item && item !in list[..i]
      && Edited(list, item, true) == list[..i] + list[i + 1..]
  {
    var i := FirstIndex(list, item);
    assert list == list[..i] + [item] + list[i + 1..];
    assert multiset(list) == multiset(list[..i]) + multiset{item} + multiset(list[i + 1..]);
  }

  /** Deleting from a list without duplicates leaves the item out
      entirely, and the list still without duplicates. */
  lemma DeleteOfDistinct(list: seq<string>, item: string)
    requires Distinct(list) && item in list
    ensures item !in Edited(list, item, true)
    ensures Distinct(Edited(list, item, true))
  {
    var i := FirstIndex(list, item);
    var r := list[..i] + list[i + 1..];
    assert Edited(list, item, true) == r;
    forall a, b | 0 <= a < b < |r|
      ensures r[a] != r[b] && r[a] != item
    {
      var a' := if a < i then a else a + 1;
      var b' := if b < i then b else b + 1;
      assert r[a] == list[a'] && r[b] == list[b'];
      assert a' < b' && a' != i && b' != i;
    }
    if |r| > 0 {
      var last := |r| - 1;
      var l' := if last < i then last else last + 1;
      assert r[last] == list[l'] && l' != i;
    }
  }

  /** Deleting what was just added restores the list. */
  lemma AddThenDelete(list: seq<string>, item: string)
    requires item !in list
    ensures Edited(Edited(list, item, false), item, true) == list
  {
    var r := list + [item];
    assert r[..|list|] == list;
    FirstIndexUnique(r, item, |list|);
  }

  /** In a list without duplicates, deleting and re-adding an item moves it
      to the end: the same items, in a different order. */
  lemma DeleteThenAdd(list: seq<string>, item: string)
    requires Distinct(list) && item in list
    ensures multiset(Edited(Edited(list, item, true), item, false)) == multiset(list)
    ensures var r := Edited(Edited(list, item, true), item, false); r[|r| - 1] == item
  {
    DeleteOfDistinct(list, item);
    DeleteRemovesOne(list, item);
  }

  // ---------------------------------------------------------------------
  // The security object

  /** `SecurityGroup`: the user names and the roles of one group. */
  datatype SecurityGroup = SecurityGroup(names: seq<string>, roles: seq<string>)

  /** The value of a whole `DefaultSecurity`. */
  datatype Settings = Settings(admins: SecurityGroup, members: SecurityGroup)

  const NoSettings := Settings(SecurityGroup([], []), SecurityGroup([], []))

  /** The four lists an `Update*` method can edit. */
  datatype ListKind = AdminNames | AdminRoles | MemberNames | MemberRoles

  function ListOf(s: Settings, kind: ListKind): seq<string>
  {
    match kind
    case AdminNames => s.admins.names
    case AdminRoles => s.admins.roles
    case MemberNames => s.members.names
    case MemberRoles => s.members.roles
  }

  /** Names are logins, the rest are roles. */
  function ExistsError(kind: ListKind): Error
  {
    if kind == AdminNames || kind == MemberNames then LoginExists else RoleExists
  }

  /** The settings after the `Update*` method for `kind`: that list
      edited, the other three as they were. */
  function Edit(s: Settings, kind: ListKind, item: string, delete: bool): (r: Settings)
    ensures ListOf(r, kind) == Edited(ListOf(s, kind), item, delete)
    ensures forall other :: other != kind ==> ListOf(r, other) == ListOf(s, other)
  {
    var list := Edited(ListOf(s, kind), item, delete);
    match kind
    case AdminNames => s.(admins := s.admins.(names := list))
    case AdminRoles => s.(admins := s.admins.(roles := list))
    case MemberNames => s.(members := s.members.(names := list))
    case MemberRoles => s.(members := s.members.(roles := list))
  }

  /** `DefaultSecurity`, the object the four `Update*` methods edit. */
  class DefaultSecurity {
    var admins: SecurityGroup
    var members: SecurityGroup

    constructor ()
      ensures Current() == NoSettings
    {
      admins := SecurityGroup([], []);
      members := SecurityGroup([], []);
    }

    /** The four lists held. */
    function Current(): Settings
      reads this
    {
      Settings(admins, members)
    }

    /** `UpdateAdmins`: edits the admin names. */
    method UpdateAdmins(login: string, delete: bool) returns (err: Option<Error>)
      modifies this
      ensures admins.names == Edited(old(admins.names), login, delete)
      ensures admins.roles == old(admins.roles) && members == old(members)
      ensures err == EditError(old(admins.names), login, delete, LoginExists)
      ensures Current() == Edit(old(Current()), AdminNames, login, delete)
    {
      var names;
      names, err := EditList(admins.names, login, delete, LoginExists);
      admins := admins.(names := names);
    }

    /** `UpdateMembers`: edits the member names. */
    method UpdateMembers(login: string, delete: bool) returns (err: Option<Error>)
      modifies this
      ensures members.names == Edited(old(members.names), login, delete)
      ensures members.roles == old(members.roles) && admins == old(admins)
      ensures err == EditError(old(members.names), login, delete, LoginExists)
      ensures Current() == Edit(old(Current()), MemberNames, login, delete)
    {
      var names;
      names, err := EditList(members.names, login, delete, LoginExists);
      members := members.(names := names);
    }

    /** `UpdateAdminRoles`: edits the admin roles. */
    method UpdateAdminRoles(role: string, delete: bool) returns (err: Option<Error>)
      modifies this
      ensures admins.roles == Edited(old(admins.roles), role, delete)
      ensures admins.names == old(admins.names) && members == old(members)
      ensures err == EditError(old(admins.roles), role, delete, RoleExists)
      ensures Current() == Edit(old(Current()), AdminRoles, role, delete)
    {
      var roles;
      roles, err := EditList(admins.roles, role, delete, RoleExists);
      admins := admins.(roles := roles);
    }

    /** `UpdateMemberRoles`: edits the member roles. */
    method UpdateMemberRoles(role: string, delete: bool) returns (err: Option<Error>)
      modifies this
      ensures members.roles == Edited(old(members.roles), role, delete)
      ensures members.names == old(members.names) && admins == old(admins)
      ensures err == EditError(old(members.roles), role, delete, RoleExists)
      ensures Current() == Edit(old(Current()), MemberRoles, role, delete)
    {
      var roles;
      roles, err := EditList(members.roles, role, delete, RoleExists);
      members := members.(roles := roles);
    }

    /** Decoding a fetched object into the receiver: a list the reply
        carries replaces the one held, a list it leaves out stays. */
    method Load(f: Fetched)
      modifies this
      ensures Current() == Merged(old(Current()), f)
    {
      admins := MergedGroup(admins, f.admins);
      members := MergedGroup(members, f.members);
    }
  }

  // ---------------------------------------------------------------------
  // The stored form

  /** A group as `json.Marshal` writes it: `names` and `roles` are
      `omitempty`, so an empty list is left out. */
  function GroupJson(g: SecurityGroup): Value
  {
    Obj((if g.names == [] then map[] else map["names" := Arr(StringValues(g.names))])
      + (if g.roles == [] then map[] else map["roles" := Arr(StringValues(g.roles))]))
  }

  /** The body `SetSecurity` stores. */
  function SettingsJson(s: Settings): Value
  {
    Obj(map["admins" := GroupJson(s.admins), "members" := GroupJson(s.members)])
  }

  /** What a reply decodes to, list by list: `None` where the reply has
      no such key, so that the receiver keeps what it holds. */
  datatype FetchedGroup = FetchedGroup(names: Option<seq<string>>, roles: Option<seq<string>>)
  datatype Fetched = Fetched(admins: FetchedGroup, members: FetchedGroup)

  function MergedList(held: seq<string>, got: Option<seq<string>>): seq<string>
  {
    if got.Some? then got.value else held
  }

  function MergedGroup(held: SecurityGroup, got: FetchedGroup): SecurityGroup
  {
    SecurityGroup(MergedList(held.names, got.names), MergedList(held.roles, got.roles))
  }

  function Merged(held: Settings, got: Fetched): Settings
  {
    Settings(MergedGroup(held.admins, got.admins), MergedGroup(held.members, got.members))
  }

  /** A JSON array of strings read back; `null` decodes to an empty list. */
  function DecodeStrings(v: Value): Option<seq<string>>
  {
    match v
    case Null => Some([])
    case Arr(items) => DecodeItems(items)
    case _ => None
  }

  function DecodeItems(items: seq<Value>): (r: Option<seq<string>>)
    ensures r.Some? ==> |r.value| == |items|
  {
    if items == [] then Some([])
    else match (DecodeItems(items[..|items| - 1]), items[|items| - 1])
      case (Some(init), Str(s)) => Some(init + [s])
      case _ => None
  }

  /** One key of a group object: absent gives `Some(None)`, a list gives
      `Some(Some(list))`, anything else does not decode. */
  function DecodeKey(fields: map<string, Value>, key: string): Option<Option<seq<string>>>
  {
    if key !in fields then Some(None)
    else match DecodeStrings(fields[key])
      case None => None
      case Some(list) => Some(Some(list))
  }

  function DecodeGroup(fields: map<string, Value>, key: string): Option<FetchedGroup>
  {
    if key !in fields then Some(FetchedGroup(None, None))
    else match fields[key]
      case Null => Some(FetchedGroup(None, None))
      case Obj(g) =>
        (match (DecodeKey(g, "names"), DecodeKey(g, "roles"))
         case (Some(names), Some(roles)) => Some(FetchedGroup(names, roles))
         case _ => None)
      case _ => None
  }

  /** `json.Decode` of a stored security object into a `DefaultSecurity`;
      `None` when the shapes do not match. */
  function DecodeSettings(v: Value): Option<Fetched>
  {
    match v
    case Obj(fields) =>
      (match (DecodeGroup(fields, "admins"), DecodeGroup(fields, "members"))
       case (Some(a), Some(m)) => Some(Fetched(a, m))
       case _ => None)
    case _ => None
  }

  lemma {:induction false} StringsRoundTrip(list: seq<string>)
    ensures DecodeItems(StringValues(list)) == Some(list)
  {
    if list != [] {
      var init := list[..|list| - 1];
      StringsRoundTrip(init);
      assert StringValues(list)[..|list| - 1] == StringValues(init);
      assert init + [list[|list| - 1]] == list;
    }
  }

  /** A group stored under `key` decodes back to itself: into an empty
      group always; into a held one list by list, where a stored list
      replaces the held one unless it is empty (an empty list is left
      out, so the held one stays). */
  lemma GroupRoundTrip(fields: map<string, Value>, key: string, g: SecurityGroup, held: SecurityGroup)
    requires key in fields && fields[key] == GroupJson(g)
    ensures DecodeGroup(fields, key).Some?
    ensures var f := DecodeGroup(fields, key).value;
      && MergedGroup(SecurityGroup([], []), f) == g
      && (g.names != [] && g.roles != [] ==> MergedGroup(held, f) == g)
      && MergedGroup(held, f).names == (if g.names == [] then held.names else g.names)
      && MergedGroup(held, f).roles == (if g.roles == [] then held.roles else g.roles)
  {
    var gf := GroupJson(g).fields;
    ListRoundTrip(gf, "names", g.names);
    ListRoundTrip(gf, "roles", g.roles);
    var f := FetchedGroup(if g.names == [] then None else Some(g.names), if g.roles == [] then None else Some(g.roles));
    assert DecodeGroup(fields, key) == Some(f);
  }

  /** One list of a stored group read back: left out when empty, itself
      otherwise. */
  lemma ListRoundTrip(fields: map<string, Value>, key: string, list: seq<string>)
    requires list == [] ==> key !in fields
    requires list != [] ==> key in fields && fields[key] == Arr(StringValues(list))
    ensures DecodeKey(fields, key) == Some(if list == [] then None else Some(list))
  {
    if list != [] {
      StringsRoundTrip(list);
    }
  }

  /** Storing and fetching back into an empty object gives the stored
      settings; fetching into a non-empty one gives them too when no list
      is empty (an empty list is not stored, so the one held stays). */
  lemma StoreThenFetch(s: Settings, held: Settings)
    ensures DecodeSettings(SettingsJson(s)).Some?
    ensures Merged(NoSettings, DecodeSettings(SettingsJson(s)).value) == s
    ensures s.admins.names != [] && s.admins.roles != [] && s.members.names != [] && s.members.roles != [] ==>
      Merged(held, DecodeSettings(SettingsJson(s)).value) == s
  {
    var fields := SettingsJson(s).fields;
    GroupRoundTrip(fields, "admins", s.admins, held.admins);
    GroupRoundTrip(fields, "members", s.members, held.members);
    var a := DecodeGroup(fields, "admins").value;
    var m := DecodeGroup(fields, "members").value;
    assert DecodeSettings(SettingsJson(s)) == Some(Fetched(a, m));
  }

  // ---------------------------------------------------------------------
  // Fetch, edit, store

  /** `GetSecurity`'s request. */
  function FetchRequest(db: Database.Database): Request
  {
    Request("GET", Database.JoinedPath([db.name, "_security"]), map[], None)
  }

  /** `SetSecurity`'s request, carrying the settings held. */
  function StoreRequest(db: Database.Database, s: Settings): Request
  {
    Request("PUT", Database.JoinedPath([db.name, "_security"]), map["Content-Type" := ApplicationJson], Some(SettingsJson(s)))
  }

  /** Both requests go to `/<db>/_security`. */
  lemma SecurityPath(db: Database.Database, s: Settings)
    ensures FetchRequest(db).path == "/" + db.name + "/_security"
    ensures StoreRequest(db, s).path == "/" + db.name + "/_security"
  {
    Database.TwoSegments(db.name, "_security");
  }

  /** What one fetch-edit-store helper does, given how the fetch came back
      (the decoded reply or the error) and how the store came back: a
      failed fetch is returned and nothing else happens; otherwise the
      fetched lists are loaded, the list is edited (its error dropped),
      and the result is stored, the store's error being the result. */
  predicate Synced(db: Database.Database, before: Settings, fetched: Result<Fetched, Error>, stored: Option<Error>,
                   kind: ListKind, item: string, delete: bool,
                   after: Settings, sent: seq<Request>, err: Option<Error>)
  {
    if fetched.Err? then
      after == before && sent == [FetchRequest(db)] && err == Some(fetched.error)
    else
      && after == Edit(Merged(before, fetched.value), kind, item, delete)
      && sent == [FetchRequest(db), StoreRequest(db, after)]
      && err == stored
  }

  /** The success case of `Synced`, stated from its parts. */
  lemma StoredSynced(db: Database.Database, before: Settings, f: Fetched, stored: Option<Error>,
                     kind: ListKind, item: string, delete: bool, after: Settings, sent: seq<Request>)
    requires after == Edit(Merged(before, f), kind, item, delete)
    requires sent == [FetchRequest(db), StoreRequest(db, after)]
    ensures Synced(db, before, Ok(f), stored, kind, item, delete, after, sent, stored)
  {
  }

  /** The failure case of `Synced`: only the fetch was sent. */
  lemma FetchFailedSynced(db: Database.Database, before: Settings, e: Error, stored: Option<Error>,
                          kind: ListKind, item: string, delete: bool)
    ensures Synced(db, before, Err(e), stored, kind, item, delete, before, [FetchRequest(db)], Some(e))
  {
  }

  /** Re-adding a present admin (or member, or role) still stores the
      object, unchanged from what was fetched, and reports only the
      store's outcome. */
  lemma ReAddStillStores(db: Database.Database, before: Settings, f: Fetched, stored: Option<Error>,
                         kind: ListKind, item: string, after: Settings, sent: seq<Request>, err: Option<Error>)
    requires Synced(db, before, Ok(f), stored, kind, item, false, after, sent, err)
    requires item in ListOf(Merged(before, f), kind)
    ensures after == Merged(before, f)
    ensures |sent| == 2 && sent[1] == StoreRequest(db, Merged(before, f))
    ensures err == stored
  {
    PresentAddRefused(ListOf(Merged(before, f), kind), item, ExistsError(kind));
    var m := Merged(before, f);
    assert forall k :: ListOf(after, k) == ListOf(m, k);
    assert after.admins == m.admins && after.members == m.members;
  }

  /** `DatabaseSecurity`: a security object bound to a database. */
  class DatabaseSecurity {
    const db: Database.Database
    const security: DefaultSecurity

    constructor (db: Database.Database)
      ensures this.db == db && fresh(security) && security.Current() == NoSettings
    {
      this.db := db;
      security := new DefaultSecurity();
    }

    /** `AddAdmin`. */
    method AddAdmin(login: string, fetched: Result<Fetched, Error>, stored: Option<Error>)
      returns (sent: seq<Request>, err: Option<Error>)
      modifies security
      ensures Synced(db, old(security.Current()), fetched, stored, AdminNames, login, false, security.Current(), sent, err)
    {
      ghost var before := security.Current();
      sent := [FetchRequest(db)];
      if fetched.Err? {
        FetchFailedSynced(db, before, fetched.error, stored, AdminNames, login, false);
        return sent, Some(fetched.error);
      }
      security.Load(fetched.value);
      var _ := security.UpdateAdmins(login, false);
      var after := security.Current();
      sent := sent + [StoreRequest(db, after)];
      err := stored;
      StoredSynced(db, before, fetched.value, stored, AdminNames, login, false, after, sent);
    }

    /** `DeleteAdmin`. */
    method DeleteAdmin(login: string, fetched: Result<Fetched, Error>, stored: Option<Error>)
      returns (sent: seq<Request>, err: Option<Error>)
      modifies security
      ensures Synced(db, old(security.Current()), fetched, stored, AdminNames, login, true, security.Current(), sent, err)
    {
      ghost var before := security.Current();
      sent := [FetchRequest(db)];
      if fetched.Err? {
        FetchFailedSynced(db, before, fetched.error, stored, AdminNames, login, true);
        return sent, Some(fetched.error);
      }
      security.Load(fetched.value);
      var _ := security.UpdateAdmins(login, true);
      var after := security.Current();
      sent := sent + [StoreRequest(db, after)];
      err := stored;
      StoredSynced(db, before, fetched.value, stored, AdminNames, login, true, after, sent);
    }

    /** `AddAdminRole`. */
    method AddAdminRole(role: string, fetched: Result<Fetched, Error>, stored: Option<Error>)
      returns (sent: seq<Request>, err: Option<Error>)
      modifies security
      ensures Synced(db, old(security.Current()), fetched, stored, AdminRoles, role, false, security.Current(), sent, err)
    {
      ghost var before := security.Current();
      sent := [FetchRequest(db)];
      if fetched.Err? {
        FetchFailedSynced(db, before, fetched.error, stored, AdminRoles, role, false);
        return sent, Some(fetched.error);
      }
      security.Load(fetched.value);
      var _ := security.UpdateAdminRoles(role, false);
      var after := security.Current();
      sent := sent + [StoreRequest(db, after)];
      err := stored;
      StoredSynced(db, before, fetched.value, stored, AdminRoles, role, false, after, sent);
    }

    /** `DeleteAdminRole`. */
    method DeleteAdminRole(role: string, fetched: Result<Fetched, Error>, stored: Option<Error>)
      returns (sent: seq<Request>, err: Option<Error>)
      modifies security
      ensures Synced(db, old(security.Current()), fetched, stored, AdminRoles, role, true, security.Current(), sent, err)
    {
      ghost var before := security.Current();
      sent := [FetchRequest(db)];
      if fetched.Err? {
        FetchFailedSynced(db, before, fetched.error, stored, AdminRoles, role, true);
        return sent, Some(fetched.error);
      }
      security.Load(fetched.value);
      var _ := security.UpdateAdminRoles(role, true);
      var after := security.Current();
      sent := sent + [StoreRequest(db, after)];
      err := stored;
      StoredSynced(db, before, fetched.value, stored, AdminRoles, role, true, after, sent);
    }

    /** `AddMember`. */
    method AddMember(login: string, fetched: Result<Fetched, Error>, stored: Option<Error>)
      returns (sent: seq<Request>, err: Option<Error>)
      modifies security
      ensures Synced(db, old(security.Current()), fetched, stored, MemberNames, login, false, security.Current(), sent, err)
    {
      ghost var before := security.Current();
      sent := [FetchRequest(db)];
      if fetched.Err? {
        FetchFailedSynced(db, before, fetched.error, stored, MemberNames, login, false);
        return sent, Some(fetched.error);
      }
      security.Load(fetched.value);
      var _ := security.UpdateMembers(login, false);
      var after := security.Current();
      sent := sent + [StoreRequest(db, after)];
      err := stored;
      StoredSynced(db, before, fetched.value, stored, MemberNames, login, false, after, sent);
    }

    /** `DeleteMember`. */
    method DeleteMember(login: string, fetched: Result<Fetched, Error>, stored: Option<Error>)
      returns (sent: seq<Request>, err: Option<Error>)
      modifies security
      ensures Synced(db, old(security.Current()), fetched, stored, MemberNames, login, true, security.Current(), sent, err)
    {
      ghost var before := security.Current();
      sent := [FetchRequest(db)];
      if fetched.Err? {
        FetchFailedSynced(db, before, fetched.error, stored, MemberNames, login, true);
        return sent, Some(fetched.error);
      }
      security.Load(fetched.value);
      var _ := security.UpdateMembers(login, true);
      var after := security.Current();
      sent := sent + [StoreRequest(db, after)];
      err := stored;
      StoredSynced(db, before, fetched.value, stored, MemberNames, login, true, after, sent);
    }

    /** `AddMemberRole`. */
    method AddMemberRole(role: string, fetched: Result<Fetched, Error>, stored: Option<Error>)
      returns (sent: seq<Request>, err: Option<Error>)
      modifies security
      ensures Synced(db, old(security.Current()), fetched, stored, MemberRoles, role, false, security.Current(), sent, err)
    {
      ghost var before := security.Current();
      sent := [FetchRequest(db)];
      if fetched.Err? {
        FetchFailedSynced(db, before, fetched.error, stored, MemberRoles, role, false);
        return sent, Some(fetched.error);
      }
      security.Load(fetched.value);
      var _ := security.UpdateMemberRoles(role, false);
      var after := security.Current();
      sent := sent + [StoreRequest(db, after)];
      err := stored;
      StoredSynced(db, before, fetched.value, stored, MemberRoles, role, false, after, sent);
    }

    /** `DeleteMemberRole`. */
    method DeleteMemberRole(role: string, fetched: Result<Fetched, Error>, stored: Option<Error>)
      returns (sent: seq<Request>, err: Option<Error>)
      modifies security
      ensures Synced(db, old(security.Current()), fetched, stored, MemberRoles, role, true, security.Current(), sent, err)
    {
      ghost var before := security.Current();
      sent := [FetchRequest(db)];
      if fetched.Err? {
        FetchFailedSynced(db, before, fetched.error, stored, MemberRoles, role, true);
        return sent, Some(fetched.error);
      }
      security.Load(fetched.value);
      var _ := security.UpdateMemberRoles(role, true);
      var after := security.Current();
      sent := sent + [StoreRequest(db, after)];
      err := stored;
      StoredSynced(db, before, fetched.value, stored, MemberRoles, role, true, after, sent);
    }
  }
}
