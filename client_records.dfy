// The back-end client service: the `clients` table.

module ClientRecords {
  import opened Wrappers
  import opened Seqs
  import opened Entities
  import opened Tables
  import JobRecords

  /** The row `createClient` inserts; `name` and `email` are NOT NULL columns without a default. */
  function NewClient(id: int, data: ClientPatch): (r: Result<Client, string>)
    ensures r.Ok? <==> data.name.Has? && data.email.Has?
    ensures r.Ok? ==>
      (r.value.id == id && r.value.name == data.name.value && r.value.email == data.email.value
       && r.value.phone == data.phone.Stored() && r.value.discord == data.discord.Stored())
  {
    if !data.name.Has? then Err("NOT NULL constraint failed: clients.name")
    else if !data.email.Has? then Err("NOT NULL constraint failed: clients.email")
    else Ok(Client(id, data.name.value, data.email.value, data.phone.Stored(), data.discord.Stored()))
  }

  /** What `updateClient` writes: name, email, phone and discord, each only when present. */
  function ApplyUpdate(c: Client, p: ClientPatch): (r: Client)
    ensures r.id == c.id
    ensures SetFrom(p.name, c.name, r.name) && SetFrom(p.email, c.email, r.email)
    ensures WrittenFrom(p.phone, c.phone, r.phone) && WrittenFrom(p.discord, c.discord, r.discord)
    ensures p == ClientPatch(Missing, Missing, Missing, Missing) ==> r == c
  {
    c.(name := if p.name.Has? then p.name.value else c.name,
       email := if p.email.Has? then p.email.value else c.email,
       phone := p.phone.Over(c.phone),
       discord := p.discord.Over(c.discord))
  }

  /** Setting `name` or `email` to null violates NOT NULL and the update fails. */
  predicate Writable(p: ClientPatch) {
    !p.name.Null? && !p.email.Null?
  }

  function HasEmail(email: string): Client -> bool {
    (c: Client) => c.email == email
  }

  /** `findOne({ where: { email } })`: the first row with that email, if any. */
  function ByEmail(t: seq<Client>, email: string): (r: Option<Client>)
    ensures r.Some? ==> r.value in t && r.value.email == email
    ensures r.None? <==> forall i :: 0 <= i < |t| ==> t[i].email != email
  {
    var i := FindIndex(t, HasEmail(email));
    if i < 0 then None else Some(t[i])
  }

  /** The `WHERE` of `searchClients`. */
  predicate ClientMatches(c: Client, term: string) {
    JobRecords.Like(c.name, term) || JobRecords.Like(c.email, term)
  }

  function Matching(term: string): Client -> bool {
    (c: Client) => ClientMatches(c, term)
  }

  /** `searchClients(term)`, newest first. */
  function SearchResults(t: seq<Client>, term: string): (r: seq<Client>)
    ensures |r| <= |t|
    ensures forall k :: 0 <= k < |r| ==> ClientMatches(r[k], term)
  {
    Reverse(Filter(t, Matching(term)))
  }

  /** `searchClients` returns exactly the matching clients, a newer one ahead of an older one. */
  lemma SearchClientsExactly(t: seq<Client>, term: string, c: Client)
    ensures c in SearchResults(t, term) <==> c in t && ClientMatches(c, term)
  {
    var f := Filter(t, Matching(term));
    FilterMembers(t, Matching(term));
    var r := SearchResults(t, term);
    if c in r {
      var i :| 0 <= i < |r| && r[i] == c;
      assert f[|f| - 1 - i] == c;
    }
    if c in t && ClientMatches(c, term) {
      assert c in f;
      var k :| 0 <= k < |f| && f[k] == c;
      assert r[|f| - 1 - k] == c;
    }
  }

  lemma SearchClientsNewestFirst(t: seq<Client>, c: Client, term: string)
    ensures SearchResults(t + [c], term) ==
      (if ClientMatches(c, term) then [c] else []) + SearchResults(t, term)
  {
    FilterConcat(t, [c], Matching(term));
    ReverseConcat(Filter(t, Matching(term)), Filter([c], Matching(term)));
  }

  /** The in-memory `clients` table behind `ClientService`. */
  class ClientService {
    var clients: seq<Client>
    var nextId: int

    ghost predicate Valid()
      reads this
    {
      WellKeyed(clients, ClientKey, nextId)
    }

    constructor()
      ensures Valid() && clients == []
    {
      clients := [];
      nextId := 1;
    }

    method CreateClient(data: ClientPatch) returns (r: Result<Client, string>)
      requires Valid()
      modifies this
      ensures Valid()
      ensures r == NewClient(old(nextId), data)
      ensures r.Ok? ==> clients == old(clients) + [r.value]
      ensures r.Err? ==> clients == old(clients)
    {
      r := NewClient(nextId, data);
      if r.Ok? {
        AppendWellKeyed(clients, ClientKey, nextId, r.value);
        clients := clients + [r.value];
        nextId := nextId + 1;
      }
    }

    /** `getAllClients`, newest first. */
    method GetAllClients() returns (r: seq<Client>)
      ensures r == Reverse(clients)
    {
      r := Reverse(clients);
    }

    method GetClientById(id: int) returns (r: Option<Client>)
      ensures r == Lookup(clients, ClientKey, id)
    {
      r := Lookup(clients, ClientKey, id);
    }

    method GetClientByEmail(email: string) returns (r: Option<Client>)
      ensures r == ByEmail(clients, email)
    {
      r := ByEmail(clients, email);
    }

    /** `updateClient`: nothing when no row has the id or the store fails (`fails`). */
    method UpdateClient(id: int, p: ClientPatch, fails: bool) returns (r: Option<Client>)
      requires Valid()
      modifies this
      ensures Valid() && nextId == old(nextId)
      ensures fails || Lookup(old(clients), ClientKey, id).None? || !Writable(p) ==>
        r.None? && clients == old(clients)
      ensures !fails && Lookup(old(clients), ClientKey, id).Some? && Writable(p) ==>
        r == Some(ApplyUpdate(Lookup(old(clients), ClientKey, id).value, p))
        && clients == Replaced(old(clients), ClientKey, id, r.value)
    {
      var cur := Lookup(clients, ClientKey, id);
      if fails || cur.None? || !Writable(p) {
        return None;
      }
      var c := ApplyUpdate(cur.value, p);
      ReplacedWellKeyed(clients, ClientKey, nextId, id, c);
      clients := Replaced(clients, ClientKey, id, c);
      r := Some(c);
    }

    /** `deleteClient`: true exactly when a row was removed. */
    method DeleteClient(id: int) returns (removed: bool)
      requires Valid()
      modifies this
      ensures Valid() && nextId == old(nextId)
      ensures removed <==> Lookup(old(clients), ClientKey, id).Some?
      ensures clients == Without(old(clients), ClientKey, id)
    {
      removed := Lookup(clients, ClientKey, id).Some?;
      WithoutWellKeyed(clients, ClientKey, nextId, id);
      clients := Without(clients, ClientKey, id);
    }

    method SearchClients(term: string) returns (r: seq<Client>)
      ensures r == SearchResults(clients, term)
    {
      r := SearchResults(clients, term);
    }
  }
}
