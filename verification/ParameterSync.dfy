/**
 Parameter synchronisation between a client and the server it was paired with: Sync and sync of
 lib/fed/middlewares/ps/sync.go with the client's filter in lib/fed/middlewares/ps/client.go. A
 missing parameter reads as the empty string, as a Go map does.
 */
module ParameterSync {
  import opened Collections

  type Parameters = map<string, string>

  function Read(m: Parameters, name: string): string {
    if name in m then m[name] else ""
  }

  datatype Pair = Pair(client: Parameters, server: Parameters)

  /** One name brought in line. */
  function SyncName(tracking: seq<string>, synced: bool, p: Pair, name: string): Pair {
    var value, expected := Read(p.client, name), Read(p.server, name);
    if value == expected then (if synced then p else p.(client := p.client[name := expected]))
    else if name in p.client && name in tracking then
      Pair(if synced then p.client else p.client[name := value], p.server[name := value])
    else if name in p.server then p.(client := p.client[name := expected])
    else p
  }

  function SyncNames(tracking: seq<string>, synced: bool, p: Pair, names: seq<string>): Pair
    decreases |names|
  {
    if names == [] then p else SyncNames(tracking, synced, SyncName(tracking, synced, p, names[0]), names[1..])
  }

  /** The second loop, over names that the client may have got meanwhile. */
  function SyncOthers(tracking: seq<string>, synced: bool, p: Pair, names: seq<string>): Pair
    decreases |names|
  {
    if names == [] then p else
    SyncOthers(tracking, synced, if names[0] in p.client then p else SyncName(tracking, synced, p, names[0]), names[1..])
  }

  // ---- what it comes to for each name ----------------------------------------------------

  /** What the rules promise for a name, given what both sides had. */
  ghost predicate Settled(tracking: seq<string>, before: Pair, after: Pair, name: string) {
    && (name in before.client && name in tracking ==>
          Read(after.client, name) == Read(after.server, name) == before.client[name])
    && (!(name in before.client && name in tracking) && name in before.server ==>
          name in after.server && Read(after.client, name) == after.server[name] == before.server[name])
    && (name !in before.server && !(name in before.client && name in tracking) ==>
          name !in after.server && Read(after.client, name) == Read(before.client, name))
  }

  lemma NameSettles(tracking: seq<string>, synced: bool, p: Pair, name: string)
    ensures Settled(tracking, p, SyncName(tracking, synced, p, name), name)
    ensures name in p.client ==> name in SyncName(tracking, synced, p, name).client
  {
  }

  /** The two sides hold the same about the name as before. */
  predicate Same(p: Pair, q: Pair, name: string) {
    && (name in p.client <==> name in q.client) && Read(p.client, name) == Read(q.client, name)
    && (name in p.server <==> name in q.server) && Read(p.server, name) == Read(q.server, name)
  }

  lemma {:induction false} NamesSettle(tracking: seq<string>, synced: bool, p: Pair, names: seq<string>, name: string)
    requires Distinct(names)
    ensures var q := SyncNames(tracking, synced, p, names);
      && (name !in names ==> Same(p, q, name))
      && (name in names ==> Settled(tracking, p, q, name) && (name in p.client ==> name in q.client))
    decreases |names|
  {
    if names != [] {
      NameSettles(tracking, synced, p, names[0]);
      NamesSettle(tracking, synced, SyncName(tracking, synced, p, names[0]), names[1..], name);
      assert names[0] !in names[1..];
    }
  }

  lemma {:induction false} OthersSettle(tracking: seq<string>, synced: bool, p: Pair, names: seq<string>, name: string)
    requires Distinct(names)
    ensures var q := SyncOthers(tracking, synced, p, names);
      && (name !in names || name in p.client ==> Same(p, q, name))
      && (name in names && name !in p.client ==> Settled(tracking, p, q, name))
    decreases |names|
  {
    if names != [] {
      var p' := if names[0] in p.client then p else SyncName(tracking, synced, p, names[0]);
      NameSettles(tracking, synced, p, names[0]);
      OthersSettle(tracking, synced, p', names[1..], name);
      assert names[0] !in names[1..];
    }
  }

  /**
   After Sync, in whatever order the maps are walked: a tracked name that the client had keeps the
   client's value, any other name that the server had keeps the server's, and the two maps agree on
   every name that the server has.
   */
  lemma SyncAgrees(tracking: seq<string>, synced: bool, p: Pair, first: seq<string>, second: seq<string>, name: string)
    requires Walks(first, p.client.Keys) && Walks(second, SyncNames(tracking, synced, p, first).server.Keys)
    ensures var q := SyncOthers(tracking, synced, SyncNames(tracking, synced, p, first), second);
      Settled(tracking, p, q, name) && (name in q.server ==> Read(q.client, name) == q.server[name])
  {
    hide SyncNames, SyncOthers;
    var q := SyncNames(tracking, synced, p, first);
    NamesSettle(tracking, synced, p, first, name);
    OthersSettle(tracking, synced, q, second, name);
  }

  // ---- the middlewares -------------------------------------------------------------------

  datatype Error = ClientError | ServerError | NoError

  /** `told` is what the program behind the connection was last told, `writes` how many packets will get through. */
  class Client {
    var synced: bool
    var parameters: Parameters
    var writes: nat
    ghost var told: Parameters

    constructor (parameters: Parameters, writes: nat)
      ensures !synced && this.parameters == parameters && this.writes == writes && told == map[] && Honest()
    {
      synced, this.parameters, this.writes, told := false, parameters, writes, map[];
    }

    /** Whatever the program believes is what the map says. */
    ghost predicate Honest()
      reads this`parameters, this`told
    {
      forall name | name in told :: name in parameters && told[name] == parameters[name]
    }

    /** A ParameterStatus for the client, dropped if it is nothing new. */
    method WritePacket(name: string, value: string) returns (ok: bool)
      requires Honest()
      modifies this
      ensures Honest() && synced == old(synced)
      ensures synced && Read(old(parameters), name) == value ==> ok && parameters == old(parameters) && told == old(told)
      ensures !(synced && Read(old(parameters), name) == value) ==> parameters == old(parameters)[name := value]
      ensures ok && !(synced && Read(old(parameters), name) == value) ==> told == old(told)[name := value]
    {
      if synced && Read(parameters, name) == value {
        return true;
      }
      parameters := parameters[name := value];
      told := told - {name};
      if writes == 0 {
        return false;
      }
      writes := writes - 1;
      told := told[name := value];
      assert old(told)[name := value] == told;
      return true;
    }
  }

  class Server {
    var parameters: Parameters
    var sets: nat

    constructor (parameters: Parameters, sets: nat)
      ensures this.parameters == parameters && this.sets == sets
    {
      this.parameters, this.sets := parameters, sets;
    }
  }

  /** sync: SET on the server, ParameterStatus to the client, or neither. */
  method SyncOne(tracking: seq<string>, c: Client, s: Server, name: string) returns (err: Error)
    requires c.Honest()
    modifies c, s
    ensures c.Honest() && c.synced == old(c.synced)
    ensures err.NoError? ==> Pair(c.parameters, s.parameters) == SyncName(tracking, c.synced, old(Pair(c.parameters, s.parameters)), name)
    ensures err.NoError? ==> old(c.told).Keys <= c.told.Keys && (!c.synced && name in s.parameters ==> name in c.told)
  {
    var value, expected := Read(c.parameters, name), Read(s.parameters, name);
    if value == expected {
      if !c.synced {
        var ok := c.WritePacket(name, expected);
        return if ok then NoError else ClientError;
      }
      return NoError;
    }
    var doSet := false;
    if name in c.parameters && name in tracking {
      if s.sets == 0 {
        return ServerError;
      }
      s.sets := s.sets - 1;
      s.parameters := s.parameters[name := value];
      expected := value;
      if !c.synced {
        doSet := true;
      }
    } else if name in s.parameters {
      doSet := true;
    }
    if doSet {
      var ok := c.WritePacket(name, expected);
      if !ok {
        return ClientError;
      }
    }
    return NoError;
  }

  /** Sync: both loops, and the client counts as synchronised from then on. */
  method Sync(tracking: seq<string>, c: Client, s: Server) returns (err: Error)
    requires c.Honest()
    modifies c, s
    ensures c.Honest()
    ensures err.NoError? ==> c.synced
    ensures err.NoError? ==> forall name :: Settled(tracking, old(Pair(c.parameters, s.parameters)), Pair(c.parameters, s.parameters), name)
    ensures err.NoError? ==> forall name | name in s.parameters :: Read(c.parameters, name) == s.parameters[name]
    ensures err.NoError? && !old(c.synced) ==> forall name | name in s.parameters :: name in c.told
  {
    hide SyncName, Client.Honest, Settled;
    ghost var p := Pair(c.parameters, s.parameters);
    var first := Walk(c.parameters.Keys);
    for i := 0 to |first|
      invariant c.Honest() && c.synced == old(c.synced)
      invariant SyncNames(tracking, c.synced, Pair(c.parameters, s.parameters), first[i..]) == SyncNames(tracking, c.synced, p, first)
      invariant !c.synced ==> forall name | name in first[..i] && name in s.parameters :: name in c.told
    {
      ghost var before := s.parameters;
      assert first[i..][0] == first[i] && first[i..][1..] == first[i + 1..];
      NameSettles(tracking, c.synced, Pair(c.parameters, s.parameters), first[i]);
      OnlyThisName(tracking, c.synced, Pair(c.parameters, s.parameters), first[i]);
      err := SyncOne(tracking, c, s, first[i]);
      if !err.NoError? {
        return;
      }
    }
    assert first[|first|..] == [] && first[..|first|] == first;
    ghost var q := Pair(c.parameters, s.parameters);
    var second := Walk(s.parameters.Keys);
    forall name
      ensures name in q.client ==> name in first || name in p.client
      ensures name in first ==> name in q.client
    {
      NamesSettle(tracking, c.synced, p, first, name);
    }
    for i := 0 to |second|
      invariant c.Honest() && c.synced == old(c.synced)
      invariant SyncOthers(tracking, c.synced, Pair(c.parameters, s.parameters), second[i..]) == SyncOthers(tracking, c.synced, q, second)
      invariant s.parameters == q.server
      invariant !c.synced ==> forall name | (name in first || name in second[..i]) && name in s.parameters :: name in c.told
      invariant forall name | name in c.parameters :: name in q.client || name in second[..i]
    {
      assert second[i..][0] == second[i] && second[i..][1..] == second[i + 1..];
      if second[i] !in c.parameters {
        ServerStays(tracking, c.synced, Pair(c.parameters, s.parameters), second[i]);
        OnlyThisName(tracking, c.synced, Pair(c.parameters, s.parameters), second[i]);
        err := SyncOne(tracking, c, s, second[i]);
        if !err.NoError? {
          return;
        }
      }
    }
    assert second[|second|..] == [] && second[..|second|] == second;
    forall name
      ensures Settled(tracking, p, Pair(c.parameters, s.parameters), name)
      ensures name in s.parameters ==> Read(c.parameters, name) == s.parameters[name]
    {
      SyncAgrees(tracking, c.synced, p, first, second, name);
    }
    c.synced := true;
    err := NoError;
  }

  lemma OnlyThisName(tracking: seq<string>, synced: bool, p: Pair, name: string)
    ensures var q := SyncName(tracking, synced, p, name);
      && (forall other | other != name :: (other in q.server <==> other in p.server) && (other in q.client <==> other in p.client))
      && (name in p.client ==> name in q.client)
  {
  }

  /** A name that the client does not have changes nothing on the server. */
  lemma ServerStays(tracking: seq<string>, synced: bool, p: Pair, name: string)
    requires name !in p.client
    ensures SyncName(tracking, synced, p, name).server == p.server
  {
  }
}
