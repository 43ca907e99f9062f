/** The known-server de-duplication of backend/app/task/task.go (`Task.Run`):
    for each configured service, the decoded server list is checked entry by
    entry against a key/value store keyed by (bucket = service ident, key =
    IPv4 address), and a server is saved only when the store holds the empty
    string for its address. */
module KnownServers {
  import opened Wrappers

  datatype Service = Service(name: string, ident: string, url: string, token: string)

  /** The fields of a decoded server entry that the loop reads. */
  datatype Server = Server(id: int, name: string, ipv4: string)

  /** The record handed to the store's `Save`. */
  datatype Message = Message(key: string, bucket: string, kind: string, data: string)

  /** A configured service with the outcome of fetching its server list:
      `None` for a failed request construction, call, body read or decode. */
  datatype Fetch = Fetch(service: Service, response: Option<seq<Server>>)

  /** The store's contents, keyed by (bucket, key). */
  type Entries = map<(string, string), string>

  /** What the store's `Get` answers: the empty string for an absent key. */
  function Read(e: Entries, bucket: string, key: string): string
  {
    if (bucket, key) in e then e[(bucket, key)] else ""
  }

  /** The message saved for server `s` of the service with ident `ident`:
      keyed by the server's IPv4 address in the service's bucket, of type
      "server", carrying the server's name; saving it where the address
      reads empty is exactly one step of the server loop
      (`SaveIfUnknownStep`). */
  function MessageFor(ident: string, s: Server): (m: Message)
    ensures m.key == s.ipv4 && m.bucket == ident && m.kind == "server" && m.data == s.name
  {
    Message(s.ipv4, ident, "server", s.name)
  }

  /** One step of the inner loop: `s` is saved unless its address already
      holds a non-empty value. */
  function SaveIfUnknown(e: Entries, ident: string, s: Server): Entries
  {
    if Read(e, ident, s.ipv4) != "" then e else e[(ident, s.ipv4) := s.name]
  }

  /** One step of the loop: afterwards the address is present and no other
      entry changes; an address holding a non-empty value is left alone;
      otherwise the step is the `Save` of the server's message. */
  lemma SaveIfUnknownStep(e: Entries, ident: string, s: Server)
    ensures var r := SaveIfUnknown(e, ident, s);
      && r.Keys == e.Keys + {(ident, s.ipv4)}
      && (forall k :: k in e && k != (ident, s.ipv4) ==> r[k] == e[k])
      && (Read(e, ident, s.ipv4) != "" ==> r == e)
      && (Read(e, ident, s.ipv4) == "" ==> r == e[(MessageFor(ident, s).bucket, MessageFor(ident, s).key) := MessageFor(ident, s).data])
      && Read(r, ident, s.ipv4) == (if Read(e, ident, s.ipv4) != "" then Read(e, ident, s.ipv4) else s.name)
  {
  }

  /** The store after the inner loop over `servers`, in response order. */
  function SaveAll(e: Entries, ident: string, servers: seq<Server>): Entries
    decreases |servers|
  {
    if servers == [] then e
    else SaveIfUnknown(SaveAll(e, ident, servers[..|servers| - 1]), ident, servers[|servers| - 1])
  }

  /** What the inner loop may change: only the service's bucket, never a
      non-empty entry, and whatever is new or changed is the name of a
      listed server with that address. */
  lemma {:induction false} SaveAllFrame(e: Entries, ident: string, servers: seq<Server>)
    ensures var r := SaveAll(e, ident, servers);
      // other buckets are untouched
      && (forall k :: k in e && k.0 != ident ==> k in r && r[k] == e[k])
      && (forall k :: k in r && k.0 != ident ==> k in e)
      // a non-empty entry is never overwritten
      && (forall k :: k in e && e[k] != "" ==> k in r && r[k] == e[k])
      // whatever is new or changed is the name of a listed server with that address
      && (forall k :: k in r && (k !in e || r[k] != e[k]) ==>
            k.0 == ident && exists i :: 0 <= i < |servers| && servers[i].ipv4 == k.1 && servers[i].name == r[k])
    decreases |servers|
  {
    if servers != [] {
      var prev, last := servers[..|servers| - 1], servers[|servers| - 1];
      SaveAllFrame(e, ident, prev);
      var before, r := SaveAll(e, ident, prev), SaveAll(e, ident, servers);
      assert r == SaveIfUnknown(before, ident, last);
      SaveIfUnknownStep(before, ident, last);
      forall k | k in r && (k !in e || r[k] != e[k])
        ensures k.0 == ident && exists i :: 0 <= i < |servers| && servers[i].ipv4 == k.1 && servers[i].name == r[k]
      {
        if k == (ident, last.ipv4) && (k !in before || r[k] != before[k]) {
          assert servers[|servers| - 1] == last;
        } else {
          var i :| 0 <= i < |prev| && prev[i].ipv4 == k.1 && prev[i].name == before[k];
          assert servers[i] == prev[i];
        }
      }
    }
  }

  /** The messages the inner loop hands to `Save`, in order. */
  function SavedMessages(e: Entries, ident: string, servers: seq<Server>): (sent: seq<Message>)
    ensures |sent| <= |servers|
    ensures forall m :: m in sent ==> m.bucket == ident && m.kind == "server" && Read(e, ident, m.key) == ""
    ensures forall m :: m in sent ==> exists i :: 0 <= i < |servers| && m == MessageFor(ident, servers[i])
    decreases |servers|
  {
    if servers == [] then []
    else
      var prev := servers[..|servers| - 1];
      var s := servers[|servers| - 1];
      SaveAllFrame(e, ident, prev);
      SavedMessages(e, ident, prev)
        + (if Read(SaveAll(e, ident, prev), ident, s.ipv4) == "" then [MessageFor(ident, s)] else [])
  }

  /** The store when the loop reaches server `i`: the first `i` servers
      processed. */
  function StoreAt(e: Entries, ident: string, servers: seq<Server>, i: nat): Entries
    requires i <= |servers|
  {
    if i == 0 then e else SaveIfUnknown(StoreAt(e, ident, servers, i - 1), ident, servers[i - 1])
  }

  lemma {:induction false} StoreAtIsSaveAll(e: Entries, ident: string, servers: seq<Server>, i: nat)
    requires i <= |servers|
    ensures StoreAt(e, ident, servers, i) == SaveAll(e, ident, servers[..i])
  {
    if i > 0 {
      StoreAtIsSaveAll(e, ident, servers, i - 1);
      var prefix := servers[..i];
      assert prefix[..i - 1] == servers[..i - 1] && prefix[i - 1] == servers[i - 1];
      assert SaveAll(e, ident, prefix) == SaveIfUnknown(SaveAll(e, ident, prefix[..i - 1]), ident, prefix[i - 1]);
      assert StoreAt(e, ident, servers, i) == SaveIfUnknown(StoreAt(e, ident, servers, i - 1), ident, servers[i - 1]);
    } else {
      assert servers[..i] == [];
    }
  }

  lemma {:induction false} StoreAtPrefix(e: Entries, ident: string, servers: seq<Server>, n: nat, i: nat)
    requires i <= n <= |servers|
    ensures StoreAt(e, ident, servers[..n], i) == StoreAt(e, ident, servers, i)
  {
    if i > 0 {
      StoreAtPrefix(e, ident, servers, n, i - 1);
    }
  }

  /** Server `i` of the list finds its address empty when the loop reaches
      it, so the loop saves it. */
  ghost predicate ReachedEmpty(e: Entries, ident: string, servers: seq<Server>, i: nat)
    requires i < |servers|
  {
    Read(StoreAt(e, ident, servers, i), ident, servers[i].ipv4) == ""
  }

  lemma ReachedEmptyPrefix(e: Entries, ident: string, servers: seq<Server>, n: nat, i: nat)
    requires i < n <= |servers|
    ensures ReachedEmpty(e, ident, servers[..n], i) == ReachedEmpty(e, ident, servers, i)
  {
    StoreAtPrefix(e, ident, servers, n, i);
  }

  /** `sent` lists the messages of the servers at positions `idx`, in the
      order of `idx`. */
  ghost predicate ListsAt(ident: string, servers: seq<Server>, sent: seq<Message>, idx: seq<nat>)
  {
    |idx| == |sent| && forall j :: 0 <= j < |idx| ==> idx[j] < |servers| && sent[j] == MessageFor(ident, servers[idx[j]])
  }

  ghost predicate Increasing(idx: seq<nat>)
  {
    forall j, j' :: 0 <= j < j' < |idx| ==> idx[j] < idx[j']
  }

  /** The positions in `idx` are exactly those whose address reads empty
      when the loop reaches them. */
  ghost predicate CoversReachedEmpty(e: Entries, ident: string, servers: seq<Server>, idx: seq<nat>)
  {
    forall i :: 0 <= i < |servers| ==> (ReachedEmpty(e, ident, servers, i) <==> i in idx)
  }

  /** `sent` is, in list order and once each, the messages of exactly the
      servers whose address reads empty when the loop reaches them. */
  ghost predicate Enumerates(e: Entries, ident: string, servers: seq<Server>, sent: seq<Message>, idx: seq<nat>)
  {
    ListsAt(ident, servers, sent, idx) && Increasing(idx) && CoversReachedEmpty(e, ident, servers, idx)
  }

  /** The positions reached empty in the whole list are those of its prefix
      plus, when it is reached empty, the last one. */
  lemma CoversExtend(e: Entries, ident: string, servers: seq<Server>, idx': seq<nat>)
    requires |servers| > 0
    requires forall j :: 0 <= j < |idx'| ==> idx'[j] < |servers| - 1
    requires CoversReachedEmpty(e, ident, servers[..|servers| - 1], idx')
    ensures var n := |servers| - 1;
            CoversReachedEmpty(e, ident, servers, if ReachedEmpty(e, ident, servers, n) then idx' + [n] else idx')
  {
    var n := |servers| - 1;
    var idx := if ReachedEmpty(e, ident, servers, n) then idx' + [n] else idx';
    forall i | 0 <= i < |servers| ensures ReachedEmpty(e, ident, servers, i) <==> i in idx {
      if i < n {
        ReachedEmptyPrefix(e, ident, servers, n, i);
        assert i in idx <==> i in idx';
      } else {
        assert n !in idx';
      }
    }
  }

  /** Appending the last server's message, when it is sent, extends the
      listing of the prefix's messages to the whole list. */
  lemma ListsSnoc(ident: string, servers: seq<Server>, sent': seq<Message>, idx': seq<nat>, hit: bool)
    requires |servers| > 0
    requires ListsAt(ident, servers[..|servers| - 1], sent', idx')
    ensures var n := |servers| - 1;
            ListsAt(ident, servers, sent' + (if hit then [MessageFor(ident, servers[n])] else []), if hit then idx' + [n] else idx')
  {
    var n := |servers| - 1;
    var sent := sent' + (if hit then [MessageFor(ident, servers[n])] else []);
    var idx := if hit then idx' + [n] else idx';
    forall j | 0 <= j < |idx| ensures idx[j] < |servers| && sent[j] == MessageFor(ident, servers[idx[j]]) {
      if j < |idx'| {
        assert servers[..n][idx'[j]] == servers[idx'[j]];
      }
    }
  }

  /** One step of the enumeration: from the prefix's positions to the whole
      list's. */
  lemma EnumeratesSnoc(e: Entries, ident: string, servers: seq<Server>, sent': seq<Message>, idx': seq<nat>, hit: bool)
    requires |servers| > 0 && hit == ReachedEmpty(e, ident, servers, |servers| - 1)
    requires Enumerates(e, ident, servers[..|servers| - 1], sent', idx')
    ensures var n := |servers| - 1;
            Enumerates(e, ident, servers, sent' + (if hit then [MessageFor(ident, servers[n])] else []), if hit then idx' + [n] else idx')
  {
    var n := |servers| - 1;
    ListsSnoc(ident, servers, sent', idx', hit);
    CoversExtend(e, ident, servers, idx');
    IncreasingSnoc(idx', n, hit);
  }

  lemma IncreasingSnoc(idx': seq<nat>, n: nat, hit: bool)
    requires Increasing(idx') && forall j :: 0 <= j < |idx'| ==> idx'[j] < n
    ensures Increasing(if hit then idx' + [n] else idx')
  {
  }

  /** The loop's messages for the whole list are those for its prefix plus,
      when the last server is reached empty, its message. */
  lemma SavedMessagesSnoc(e: Entries, ident: string, servers: seq<Server>)
    requires |servers| > 0
    ensures var n := |servers| - 1;
            SavedMessages(e, ident, servers)
              == SavedMessages(e, ident, servers[..n]) + (if ReachedEmpty(e, ident, servers, n) then [MessageFor(ident, servers[n])] else [])
  {
    StoreAtIsSaveAll(e, ident, servers, |servers| - 1);
  }

  /** The loop sends one message per server whose address reads empty when
      the loop reaches it, and no other: at most one per server, in list
      order. */
  lemma {:induction false} SavedMessagesExact(e: Entries, ident: string, servers: seq<Server>)
    ensures exists idx: seq<nat> :: Enumerates(e, ident, servers, SavedMessages(e, ident, servers), idx)
    decreases |servers|
  {
    if servers == [] {
      assert SavedMessages(e, ident, servers) == [];
      assert Enumerates(e, ident, servers, [], []);
    } else {
      var n := |servers| - 1;
      SavedMessagesExact(e, ident, servers[..n]);
      var sent' := SavedMessages(e, ident, servers[..n]);
      var idx': seq<nat> :| Enumerates(e, ident, servers[..n], sent', idx');
      var hit := ReachedEmpty(e, ident, servers, n);
      SavedMessagesSnoc(e, ident, servers);
      EnumeratesSnoc(e, ident, servers, sent', idx', hit);
      assert Enumerates(e, ident, servers, SavedMessages(e, ident, servers), if hit then idx' + [n] else idx');
    }
  }

  /** Every listed server's address is present in the bucket, and it holds
      the empty string only if that server's name is empty. */
  ghost predicate Settled(e: Entries, ident: string, servers: seq<Server>)
  {
    forall i :: 0 <= i < |servers| ==>
      (ident, servers[i].ipv4) in e && (e[(ident, servers[i].ipv4)] == "" ==> servers[i].name == "")
  }

  /** After the loop every listed server is known; in particular a server
      with a non-empty name leaves a non-empty entry. That later servers with
      the same address in this response cannot change it is
      `StoreAtKeepsNonEmpty`; that a later run on the same store cannot is
      `SaveAllFrame` applied to this store. */
  lemma {:induction false} SaveAllSettles(e: Entries, ident: string, servers: seq<Server>)
    ensures Settled(SaveAll(e, ident, servers), ident, servers)
    ensures forall i :: 0 <= i < |servers| && servers[i].name != "" ==>
              Read(SaveAll(e, ident, servers), ident, servers[i].ipv4) != ""
    decreases |servers|
  {
    if servers != [] {
      var prev, last := servers[..|servers| - 1], servers[|servers| - 1];
      SaveAllSettles(e, ident, prev);
      assert servers == prev + [last];
      assert SaveAll(e, ident, servers) == SaveIfUnknown(SaveAll(e, ident, prev), ident, last);
      SettlesStep(SaveAll(e, ident, prev), ident, prev, last);
    }
  }

  /** One step of the loop keeps the store settled for the servers seen so
      far and settles the new one. */
  lemma SettlesStep(before: Entries, ident: string, prev: seq<Server>, last: Server)
    requires Settled(before, ident, prev)
    ensures Settled(SaveIfUnknown(before, ident, last), ident, prev + [last])
  {
    var servers, r := prev + [last], SaveIfUnknown(before, ident, last);
    SaveIfUnknownStep(before, ident, last);
    forall i | 0 <= i < |servers|
      ensures (ident, servers[i].ipv4) in r && (r[(ident, servers[i].ipv4)] == "" ==> servers[i].name == "")
    {
      if i < |prev| {
        assert servers[i] == prev[i];
      }
    }
  }

  /** Once the loop has left a non-empty value at some key, the servers
      it reaches later, whatever their address, leave that value unchanged. */
  lemma {:induction false} StoreAtKeepsNonEmpty(e: Entries, ident: string, servers: seq<Server>, i: nat, j: nat, k: (string, string))
    requires i <= j <= |servers|
    requires k in StoreAt(e, ident, servers, i) && StoreAt(e, ident, servers, i)[k] != ""
    ensures k in StoreAt(e, ident, servers, j) && StoreAt(e, ident, servers, j)[k] == StoreAt(e, ident, servers, i)[k]
    decreases j
  {
    if i < j {
      StoreAtKeepsNonEmpty(e, ident, servers, i, j - 1, k);
      var before := StoreAt(e, ident, servers, j - 1);
      assert StoreAt(e, ident, servers, j) == SaveIfUnknown(before, ident, servers[j - 1]);
      SaveIfUnknownStep(before, ident, servers[j - 1]);
    }
  }

  /** An address that reads empty before the loop still reads empty when
      the loop reaches server `i` if every server before `i` with that
      address has an empty name. */
  lemma {:induction false} StoreAtStaysEmpty(e: Entries, ident: string, servers: seq<Server>, i: nat, a: string)
    requires i <= |servers| && Read(e, ident, a) == ""
    requires forall j :: 0 <= j < i && servers[j].ipv4 == a ==> servers[j].name == ""
    ensures Read(StoreAt(e, ident, servers, i), ident, a) == ""
    decreases i
  {
    if i > 0 {
      StoreAtStaysEmpty(e, ident, servers, i - 1, a);
      var before := StoreAt(e, ident, servers, i - 1);
      assert StoreAt(e, ident, servers, i) == SaveIfUnknown(before, ident, servers[i - 1]);
      SaveIfUnknownStep(before, ident, servers[i - 1]);
    }
  }

  /** Of the servers sharing an address that reads empty before the loop,
      the first one with a non-empty name is the one whose name the store
      keeps. */
  lemma FirstNonEmptyNameWins(e: Entries, ident: string, servers: seq<Server>, i: nat)
    requires i < |servers| && servers[i].name != "" && Read(e, ident, servers[i].ipv4) == ""
    requires forall j :: 0 <= j < i && servers[j].ipv4 == servers[i].ipv4 ==> servers[j].name == ""
    ensures Read(SaveAll(e, ident, servers), ident, servers[i].ipv4) == servers[i].name
  {
    var a := servers[i].ipv4;
    StoreAtStaysEmpty(e, ident, servers, i, a);
    var before := StoreAt(e, ident, servers, i);
    assert StoreAt(e, ident, servers, i + 1) == SaveIfUnknown(before, ident, servers[i]);
    SaveIfUnknownStep(before, ident, servers[i]);
    StoreAtKeepsNonEmpty(e, ident, servers, i + 1, |servers|, (ident, a));
    StoreAtIsSaveAll(e, ident, servers, |servers|);
    assert servers[..|servers|] == servers;
  }

  /** On a store that is already settled for `servers`, the loop changes
      nothing. */
  lemma {:induction false} SettledIsFixpoint(e: Entries, ident: string, servers: seq<Server>)
    requires Settled(e, ident, servers)
    ensures SaveAll(e, ident, servers) == e
    decreases |servers|
  {
    if servers != [] {
      var prev := servers[..|servers| - 1];
      var s := servers[|servers| - 1];
      assert Settled(e, ident, prev) by {
        forall i | 0 <= i < |prev| ensures (ident, prev[i].ipv4) in e {
          assert prev[i] == servers[i];
        }
      }
      SettledIsFixpoint(e, ident, prev);
      assert servers[|servers| - 1] == s;
      if Read(e, ident, s.ipv4) == "" {
        assert e[(ident, s.ipv4) := s.name] == e;
      }
    }
  }

  /** Running the loop twice on the same list leaves the store as the first
      pass left it. */
  lemma SaveAllIdempotent(e: Entries, ident: string, servers: seq<Server>)
    ensures SaveAll(SaveAll(e, ident, servers), ident, servers) == SaveAll(e, ident, servers)
  {
    SaveAllSettles(e, ident, servers);
    SettledIsFixpoint(SaveAll(e, ident, servers), ident, servers);
  }

  /** On the store a pass left, every prefix of the list is already
      settled, so the second pass reaches each server with the store
      unchanged. */
  lemma SettledReachedEmpty(e: Entries, ident: string, servers: seq<Server>, i: nat)
    requires i < |servers| && Settled(e, ident, servers)
    ensures ReachedEmpty(e, ident, servers, i) <==> Read(e, ident, servers[i].ipv4) == ""
  {
    assert Settled(e, ident, servers[..i]) by {
      forall k | 0 <= k < i ensures servers[..i][k] == servers[k] { }
    }
    SettledIsFixpoint(e, ident, servers[..i]);
    StoreAtIsSaveAll(e, ident, servers, i);
  }

  /** A second pass over the same list, on the store the first pass left,
      saves again exactly the servers whose address still reads empty, and
      every message it sends carries an empty name: a server with a
      non-empty name is never saved twice. */
  lemma SecondPassResendsOnlyEmptyNames(e: Entries, ident: string, servers: seq<Server>)
    ensures var e' := SaveAll(e, ident, servers);
            var sent := SavedMessages(e', ident, servers);
      && (forall m :: m in sent ==> m.data == "")
      && (forall i :: 0 <= i < |servers| ==> (MessageFor(ident, servers[i]) in sent <==> Read(e', ident, servers[i].ipv4) == ""))
  {
    var e' := SaveAll(e, ident, servers);
    var sent := SavedMessages(e', ident, servers);
    SaveAllSettles(e, ident, servers);
    forall m | m in sent ensures m.data == "" {
      var i :| 0 <= i < |servers| && m == MessageFor(ident, servers[i]);
      assert (ident, servers[i].ipv4) in e';
    }
    SavedMessagesExact(e', ident, servers);
    var idx: seq<nat> :| Enumerates(e', ident, servers, sent, idx);
    forall i | 0 <= i < |servers| && Read(e', ident, servers[i].ipv4) == ""
      ensures MessageFor(ident, servers[i]) in sent
    {
      SettledReachedEmpty(e', ident, servers, i);
      var j :| 0 <= j < |idx| && idx[j] == i;
      assert sent[j] == MessageFor(ident, servers[i]);
    }
  }

  /** The store after processing one service: a failed fetch contributes
      nothing; otherwise only the service's bucket changes, and no non-empty
      entry is overwritten. */
  function FetchEntries(e: Entries, f: Fetch): (r: Entries)
    ensures f.response.None? ==> r == e
    ensures forall k :: k in e && k.0 != f.service.ident ==> k in r && r[k] == e[k]
    ensures forall k :: k in r && k.0 != f.service.ident ==> k in e
    ensures forall k :: k in e && e[k] != "" ==> k in r && r[k] == e[k]
  {
    match f.response
    case None => e
    case Some(servers) =>
      SaveAllFrame(e, f.service.ident, servers);
      SaveAll(e, f.service.ident, servers)
  }

  /** The messages saved while processing one service: none after a failed
      fetch, otherwise at most one per listed server, all in the service's
      bucket and of type "server". */
  function FetchMessages(e: Entries, f: Fetch): (sent: seq<Message>)
    ensures f.response.None? ==> sent == []
    ensures f.response.Some? ==> |sent| <= |f.response.value|
    ensures forall m :: m in sent ==> m.bucket == f.service.ident && m.kind == "server"
  {
    match f.response
    case None => []
    case Some(servers) => SavedMessages(e, f.service.ident, servers)
  }

  /** The store after processing the services in configuration order; a
      failed fetch contributes nothing. */
  function RunEntries(e: Entries, fetches: seq<Fetch>): (r: Entries)
    // a non-empty entry is never overwritten
    ensures forall k :: k in e && e[k] != "" ==> k in r && r[k] == e[k]
    // a bucket no successfully fetched service owns is untouched
    ensures forall k :: k in e && (forall i :: 0 <= i < |fetches| && fetches[i].response.Some? ==> fetches[i].service.ident != k.0) ==>
              k in r && r[k] == e[k]
    // and gains no key there
    ensures forall k :: k in r && (forall i :: 0 <= i < |fetches| && fetches[i].response.Some? ==> fetches[i].service.ident != k.0) ==>
              k in e
    decreases |fetches|
  {
    if fetches == [] then e
    else
      FetchEntries(RunEntries(e, fetches[..|fetches| - 1]), fetches[|fetches| - 1])
  }

  /** The messages saved while processing the services, in order. */
  function RunMessages(e: Entries, fetches: seq<Fetch>): (sent: seq<Message>)
    ensures forall j :: 0 <= j < |sent| ==>
              sent[j].kind == "server" &&
              exists i :: 0 <= i < |fetches| && fetches[i].response.Some? && sent[j].bucket == fetches[i].service.ident
    decreases |fetches|
  {
    if fetches == [] then []
    else
      var prev := fetches[..|fetches| - 1];
      RunMessages(e, prev) + FetchMessages(RunEntries(e, prev), fetches[|fetches| - 1])
  }

  lemma RunSnoc(e: Entries, fs: seq<Fetch>, f: Fetch)
    ensures RunEntries(e, fs + [f]) == FetchEntries(RunEntries(e, fs), f)
    ensures RunMessages(e, fs + [f]) == RunMessages(e, fs) + FetchMessages(RunEntries(e, fs), f)
  {
    assert (fs + [f])[..|fs + [f]| - 1] == fs;
  }

  /** A service whose fetch failed writes nothing and sends nothing, and the
      services after it are processed exactly as if it were not configured. */
  lemma {:induction false} FailedFetchSkipped(e: Entries, a: seq<Fetch>, f: Fetch, b: seq<Fetch>)
    requires f.response.None?
    ensures RunEntries(e, a + [f] + b) == RunEntries(e, a + b)
    ensures RunMessages(e, a + [f] + b) == RunMessages(e, a + b)
    decreases |b|
  {
    if b == [] {
      assert a + [f] + b == a + [f] && a + b == a;
      RunSnoc(e, a, f);
      assert RunMessages(e, a) + [] == RunMessages(e, a);
    } else {
      var b', g := b[..|b| - 1], b[|b| - 1];
      var skipped, kept := a + [f] + b', a + b';
      assert a + [f] + b == skipped + [g] && a + b == kept + [g] by {
        assert b == b' + [g];
      }
      FailedFetchSkipped(e, a, f, b');
      RunSnoc(e, skipped, g);
      RunSnoc(e, kept, g);
    }
  }

  /** The key/value store (its package is not part of this model): `Get`
      answers the empty string for an absent key and `Save` sets the key of
      the message's bucket to its data. */
  class Store {
    var entries: Entries

    constructor (entries: Entries)
      ensures this.entries == entries
    {
      this.entries := entries;
    }

    method Get(bucket: string, key: string) returns (value: string)
      ensures value == Read(entries, bucket, key)
    {
      value := Read(entries, bucket, key);
    }

    method Save(msg: Message)
      modifies this
      ensures entries == old(entries)[(msg.bucket, msg.key) := msg.data]
    {
      entries := entries[(msg.bucket, msg.key) := msg.data];
    }
  }

  /** The inner loop of `Task.Run` for one service's decoded server list. */
  method SaveNewServers(store: Store, ident: string, servers: seq<Server>) returns (sent: seq<Message>)
    modifies store
    ensures store.entries == SaveAll(old(store.entries), ident, servers)
    ensures sent == SavedMessages(old(store.entries), ident, servers)
  {
    sent := [];
    assert servers[..0] == [];
    for i := 0 to |servers|
      invariant store.entries == SaveAll(old(store.entries), ident, servers[..i])
      invariant sent == SavedMessages(old(store.entries), ident, servers[..i])
    {
      var s := servers[i];
      assert servers[..i + 1][..i] == servers[..i];
      var existing := store.Get(ident, s.ipv4);
      if existing == "" {
        var msg := Message(s.ipv4, ident, "server", s.name);
        store.Save(msg);
        sent := sent + [msg];
      }
    }
    assert servers[..|servers|] == servers;
  }

  /** `Task.Run`: every configured service in order; a failed fetch is
      skipped and the next service is still processed. */
  method Run(fetches: seq<Fetch>, store: Store) returns (sent: seq<Message>)
    modifies store
    ensures store.entries == RunEntries(old(store.entries), fetches)
    ensures sent == RunMessages(old(store.entries), fetches)
  {
    sent := [];
    assert fetches[..0] == [];
    for i := 0 to |fetches|
      invariant store.entries == RunEntries(old(store.entries), fetches[..i])
      invariant sent == RunMessages(old(store.entries), fetches[..i])
    {
      var f := fetches[i];
      assert fetches[..i + 1][..i] == fetches[..i];
      if f.response.Some? {
        var saved := SaveNewServers(store, f.service.ident, f.response.value);
        sent := sent + saved;
      }
    }
    assert fetches[..|fetches|] == fetches;
  }
}
