/**
 * The client resolver: find a client by fiscal id, or create it with the
 * given profile (the `firstOrCreate` keyed by nit of the booking).
 * A client's id is its position in the clients table.
 */
module Clients {
  import opened Wrappers
  import opened Domain

  /** No fiscal id belongs to two clients. */
  predicate NitsUnique(clients: seq<Client>)
  {
    forall j, k :: 0 <= j < k < |clients| ==> clients[j].nit != clients[k].nit
  }

  /** The first client at or after position `from` whose fiscal id is `nit`. */
  function FindFrom(clients: seq<Client>, nit: string, from: nat): (r: Option<nat>)
    requires from <= |clients|
    ensures r.Some? ==> from <= r.value < |clients| && clients[r.value].nit == nit
    ensures r.Some? ==> forall k :: from <= k < r.value ==> clients[k].nit != nit
    ensures r.None? ==> forall k :: from <= k < |clients| ==> clients[k].nit != nit
    decreases |clients| - from
  {
    if from == |clients| then None
    else if clients[from].nit == nit then Some(from)
    else FindFrom(clients, nit, from + 1)
  }

  /** The id of the client whose fiscal id is `nit`, if there is one. */
  function FindClient(clients: seq<Client>, nit: string): (r: Option<nat>)
    ensures r.Some? ==> r.value < |clients| && clients[r.value].nit == nit
    ensures r.Some? ==> forall k :: 0 <= k < r.value ==> clients[k].nit != nit
    ensures r.None? <==> forall k :: 0 <= k < |clients| ==> clients[k].nit != nit
  {
    FindFrom(clients, nit, 0)
  }

  /**
   * The existing client with fiscal id `nit`, or else a new one made of
   * `profile` under that fiscal id, appended to the table.
   */
  function FindOrCreate(clients: seq<Client>, nit: string, profile: Client): (r: (seq<Client>, nat))
    ensures r.1 < |r.0| && r.0[r.1].nit == nit
    ensures |clients| <= |r.0| <= |clients| + 1 && r.0[..|clients|] == clients
    ensures FindClient(clients, nit).Some? ==> r == (clients, FindClient(clients, nit).value)
    ensures FindClient(clients, nit).None? ==>
              r == (clients + [profile.(nit := nit)], |clients|)
  {
    match FindClient(clients, nit)
    case Some(id) => (clients, id)
    case None => (clients + [profile.(nit := nit)], |clients|)
  }

  /** In a table without duplicate fiscal ids, the client found for a nit is the only one with it. */
  lemma FoundIsOnly(clients: seq<Client>, nit: string, k: nat)
    requires NitsUnique(clients)
    requires k < |clients| && clients[k].nit == nit
    ensures FindClient(clients, nit) == Some(k)
  {
  }

  /** Resolving a client never introduces a second client with the same fiscal id. */
  lemma FindOrCreateKeepsNitsUnique(clients: seq<Client>, nit: string, profile: Client)
    requires NitsUnique(clients)
    ensures NitsUnique(FindOrCreate(clients, nit, profile).0)
  {
    var c := FindOrCreate(clients, nit, profile).0;
    if FindClient(clients, nit).None? {
      forall j, k | 0 <= j < k < |c| ensures c[j].nit != c[k].nit {
        if k == |clients| {
          assert c[j] == clients[j];
        } else {
          assert c[j] == clients[j] && c[k] == clients[k];
        }
      }
    }
  }

  /** Once a fiscal id has been resolved, looking it up finds the client it resolved to. */
  lemma FoundAfterResolving(clients: seq<Client>, nit: string, profile: Client)
    ensures var (c1, id1) := FindOrCreate(clients, nit, profile);
            FindClient(c1, nit) == Some(id1)
  {
    var (c1, id1) := FindOrCreate(clients, nit, profile);
    if FindClient(clients, nit).None? {
      var r := FindClient(c1, nit);
      assert c1[|clients|].nit == nit;
      assert r.Some?;
    }
  }

  /**
   * Resolving the same fiscal id a second time, with any profile, yields the
   * same client and creates nothing.
   */
  lemma FindOrCreateIdempotent(clients: seq<Client>, nit: string, profile: Client, other: Client)
    ensures var (c1, id1) := FindOrCreate(clients, nit, profile);
            FindOrCreate(c1, nit, other) == (c1, id1)
  {
    FoundAfterResolving(clients, nit, profile);
  }
}
