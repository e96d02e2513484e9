/** Peer exchange: bounded address tables, gossip of newly learned addresses over fixed connections. */
module PeerExchange {
  import opened Seqs

  const MAX_DISCOVERED_PEERS: nat := 256

  type Address = string

  /**
   `Resolve` maps what a peer announced to the socket address it denotes, in canonical form, or to
   nothing when it does not parse or cannot be dialled.
   */
  datatype Resolver = Resolver(resolve: Address -> Option<Address>)
  {
    /** A canonical address denotes itself. */
    ghost predicate Canonical()
    {
      forall a, c :: resolve(a) == Some(c) ==> resolve(c) == Some(c)
    }
  }

  function Take<T>(s: seq<T>, n: nat): seq<T>
  {
    if |s| <= n then s else s[..n]
  }

  /** What one announced address does to the table. */
  function Learn(r: Resolver, table: seq<Address>, announced: Address): seq<Address>
  {
    match r.resolve(announced)
    case None => table
    case Some(a) => if |table| >= MAX_DISCOVERED_PEERS || a in table then table else table + [a]
  }

  function LearnAll(r: Resolver, table: seq<Address>, announced: seq<Address>): (t: seq<Address>)
    ensures |table| <= |t| && t[..|table|] == table
    ensures |t| <= 256 || t == table
  {
    if announced == [] then table
    else Learn(r, LearnAll(r, table, announced[..|announced| - 1]), announced[|announced| - 1])
  }

  class Transport {
    var table: seq<Address>

    constructor (configured: seq<Address>)
      ensures table == configured
    {
      table := configured;
    }

    method MergeDiscoveredPeers(r: Resolver, announced: seq<Address>) returns (added: seq<Address>)
      modifies this
      ensures table == LearnAll(r, old(table), Take(announced, 256))
      ensures table == old(table) + added
    {
      added := [];
      var incoming := if |announced| <= MAX_DISCOVERED_PEERS then announced else announced[..MAX_DISCOVERED_PEERS];
      for k := 0 to |incoming|
        invariant table == LearnAll(r, old(table), incoming[..k]) == old(table) + added
      {
        assert incoming[..k + 1][..k] == incoming[..k];
        var a := r.resolve(incoming[k]);
        if a.Some? {
          if |table| >= MAX_DISCOVERED_PEERS {
            FullTableStays(r, old(table), incoming, k);
            return;
          }
          if a.value !in table {
            table := table + [a.value];
            added := added + [a.value];
          }
        }
      }
      assert incoming[..|incoming|] == incoming;
    }
  }

  /** Once the table is full the rest of an announcement changes nothing. */
  lemma {:induction false} FullTableStays(r: Resolver, table: seq<Address>, announced: seq<Address>, k: nat)
    requires k <= |announced| && |LearnAll(r, table, announced[..k])| >= MAX_DISCOVERED_PEERS
    ensures LearnAll(r, table, announced) == LearnAll(r, table, announced[..k])
    decreases |announced| - k
  {
    if k == |announced| {
      assert announced[..k] == announced;
    } else {
      assert announced[..k + 1][..k] == announced[..k];
      FullTableStays(r, table, announced, k + 1);
    }
  }

  /** Every dialable announced address is known afterwards, unless the table is full. */
  lemma {:induction false} LearnedOrFull(r: Resolver, table: seq<Address>, announced: seq<Address>, i: nat, a: Address)
    requires i < |announced| && r.resolve(announced[i]) == Some(a)
    ensures var t := LearnAll(r, table, announced); a in t || |t| >= 256
  {
    var last := |announced| - 1;
    if i < last {
      assert announced[..last][i] == announced[i];
      LearnedOrFull(r, table, announced[..last], i, a);
    }
  }

  /** Nothing is added but what was announced and can be dialled, and nothing twice. */
  lemma {:induction false} LearnsOnlyAnnounced(r: Resolver, table: seq<Address>, announced: seq<Address>)
    ensures forall a :: a in LearnAll(r, table, announced) ==>
                          a in table || exists i :: 0 <= i < |announced| && r.resolve(announced[i]) == Some(a)
    ensures Distinct(table) ==> Distinct(LearnAll(r, table, announced))
  {
    if announced != [] {
      var last := |announced| - 1;
      LearnsOnlyAnnounced(r, table, announced[..last]);
      assert forall i :: 0 <= i < last ==> announced[..last][i] == announced[i];
    }
  }

  // ----- the network

  datatype Packet = Packet(to: nat, peers: seq<Address>)

  /** `links[i]` lists the connections of node `i`; `flight` holds announcements not yet handled. */
  datatype Net = Net(tables: seq<seq<Address>>, flight: seq<Packet>)

  type Links = seq<seq<nat>>

  ghost predicate Wired(links: Links, net: Net)
  {
    && |links| == |net.tables|
    && (forall i, k :: 0 <= i < |links| && 0 <= k < |links[i]| ==> links[i][k] < |links|)
    && (forall k :: 0 <= k < |net.flight| ==> net.flight[k].to < |links|)
  }

  function Announce(neighbours: seq<nat>, table: seq<Address>): seq<Packet>
  {
    seq(|neighbours|, k requires 0 <= k < |neighbours| => Packet(neighbours[k], table))
  }

  /** Handling the `k`-th announcement in flight; only something new is passed on. */
  function Deliver(r: Resolver, links: Links, net: Net, k: nat): (next: Net)
    requires Wired(links, net) && k < |net.flight|
    ensures Wired(links, next)
  {
    var p := net.flight[k];
    var table := LearnAll(r, net.tables[p.to], Take(p.peers, MAX_DISCOVERED_PEERS));
    var rest := net.flight[..k] + net.flight[k + 1..];
    if table == net.tables[p.to] then net.(flight := rest)
    else Net(net.tables[p.to := table], rest + Announce(links[p.to], table))
  }

  /** A run handles the announcements in any order: `order` names the position handled at each step. */
  ghost predicate IsRun(r: Resolver, links: Links, net: Net, order: seq<nat>)
    requires Wired(links, net)
    decreases |order|
  {
    order == [] || (order[0] < |net.flight| && IsRun(r, links, Deliver(r, links, net, order[0]), order[1..]))
  }

  ghost function After(r: Resolver, links: Links, net: Net, order: seq<nat>): (end: Net)
    requires Wired(links, net) && IsRun(r, links, net, order)
    ensures Wired(links, end)
    decreases |order|
  {
    if order == [] then net else After(r, links, Deliver(r, links, net, order[0]), order[1..])
  }

  // ----- every run ends

  function Free(table: seq<Address>): nat
  {
    if |table| >= MAX_DISCOVERED_PEERS then 0 else MAX_DISCOVERED_PEERS - |table|
  }

  ghost function TotalFree(tables: seq<seq<Address>>): nat
  {
    if tables == [] then 0 else Free(tables[0]) + TotalFree(tables[1..])
  }

  lemma {:induction false} TotalFreeUpdate(tables: seq<seq<Address>>, i: nat, table: seq<Address>)
    requires i < |tables|
    ensures TotalFree(tables[i := table]) + Free(tables[i]) == TotalFree(tables) + Free(table)
  {
    if i == 0 {
      assert tables[0 := table][1..] == tables[1..];
    } else {
      TotalFreeUpdate(tables[1..], i - 1, table);
      assert tables[i := table][1..] == tables[1..][i - 1 := table];
    }
  }

  ghost predicate DegreeBound(links: Links, degree: nat)
  {
    forall i :: 0 <= i < |links| ==> |links[i]| <= degree
  }

  ghost function Potential(net: Net, degree: nat): nat
  {
    |net.flight| + TotalFree(net.tables) * degree
  }

  lemma ForwardUsesSlot(r: Resolver, table: seq<Address>, announced: seq<Address>)
    ensures LearnAll(r, table, announced) != table ==> Free(LearnAll(r, table, announced)) < Free(table)
    ensures Free(LearnAll(r, table, announced)) <= Free(table)
  {
  }

  lemma DeliverLowersPotential(r: Resolver, links: Links, net: Net, k: nat, degree: nat)
    requires Wired(links, net) && k < |net.flight| && DegreeBound(links, degree)
    ensures Potential(Deliver(r, links, net, k), degree) < Potential(net, degree)
  {
    var p := net.flight[k];
    var announced := Take(p.peers, MAX_DISCOVERED_PEERS);
    var table := LearnAll(r, net.tables[p.to], announced);
    if table != net.tables[p.to] {
      ForwardUsesSlot(r, net.tables[p.to], announced);
      TotalFreeUpdate(net.tables, p.to, table);
      SlotPaysForForward(TotalFree(net.tables[p.to := table]), TotalFree(net.tables), degree);
    }
  }

  lemma SlotPaysForForward(after: nat, before: nat, degree: nat)
    requires after < before
    ensures after * degree + degree <= before * degree
  {
    assert (after + 1) * degree <= before * degree;
  }

  /** Gossip always dies out: no schedule is longer than the messages in flight plus degree times free slots. */
  lemma {:induction false} GossipTerminates(r: Resolver, links: Links, net: Net, order: seq<nat>, degree: nat)
    requires Wired(links, net) && DegreeBound(links, degree) && IsRun(r, links, net, order)
    ensures |order| + Potential(After(r, links, net, order), degree) <= Potential(net, degree)
    decreases |order|
  {
    if order != [] {
      DeliverLowersPotential(r, links, net, order[0], degree);
      GossipTerminates(r, links, Deliver(r, links, net, order[0]), order[1..], degree);
    }
  }

  /** How often node `i` forwards along a run. */
  ghost function Forwards(r: Resolver, links: Links, net: Net, order: seq<nat>, i: nat): nat
    requires Wired(links, net) && IsRun(r, links, net, order)
    decreases |order|
  {
    if order == [] then 0
    else
      var next := Deliver(r, links, net, order[0]);
      (if net.flight[order[0]].to == i && next.tables != net.tables then 1 else 0) +
          Forwards(r, links, next, order[1..], i)
  }

  lemma {:induction false} ForwardsBounded(r: Resolver, links: Links, net: Net, order: seq<nat>, i: nat)
    requires Wired(links, net) && IsRun(r, links, net, order) && i < |links|
    ensures Forwards(r, links, net, order, i) + Free(After(r, links, net, order).tables[i]) <= Free(net.tables[i])
    ensures Free(net.tables[i]) <= MAX_DISCOVERED_PEERS
    decreases |order|
  {
    if order != [] {
      var p := net.flight[order[0]];
      ForwardUsesSlot(r, net.tables[p.to], Take(p.peers, MAX_DISCOVERED_PEERS));
      ForwardsBounded(r, links, Deliver(r, links, net, order[0]), order[1..], i);
    }
  }

  // ----- what the nodes know when it has ended

  /** `a` can be learned from a table: a dialable entry among those that are read. */
  ghost predicate Offers(r: Resolver, table: seq<Address>, a: Address)
  {
    exists x :: 0 <= x < |table| && x < MAX_DISCOVERED_PEERS && r.resolve(table[x]) == Some(a)
  }

  ghost predicate Knows(table: seq<Address>, a: Address)
  {
    a in table || |table| >= MAX_DISCOVERED_PEERS
  }

  /** What a node offers, its neighbours know or are about to be told. */
  ghost predicate Served(r: Resolver, net: Net, i: nat, j: nat, a: Address)
    requires i < |net.tables| && j < |net.tables|
  {
    Offers(r, net.tables[i], a) ==>
      Knows(net.tables[j], a) ||
          exists k :: 0 <= k < |net.flight| && net.flight[k].to == j && Offers(r, net.flight[k].peers, a)
  }

  ghost predicate AllServed(r: Resolver, links: Links, net: Net)
    requires Wired(links, net)
  {
    forall i, n, a | 0 <= i < |links| && 0 <= n < |links[i]| :: Served(r, net, i, links[i][n], a)
  }

  lemma KnowsGrows(r: Resolver, table: seq<Address>, announced: seq<Address>, a: Address)
    requires Knows(table, a)
    ensures Knows(LearnAll(r, table, announced), a)
  {
    var t := LearnAll(r, table, announced);
    if a in table {
      var x :| 0 <= x < |table| && table[x] == a;
      assert t[..|table|][x] == t[x];
    }
  }

  lemma OfferedIsKnown(r: Resolver, table: seq<Address>, peers: seq<Address>, a: Address)
    requires Offers(r, peers, a)
    ensures Knows(LearnAll(r, table, Take(peers, MAX_DISCOVERED_PEERS)), a)
  {
    var x :| 0 <= x < |peers| && x < MAX_DISCOVERED_PEERS && r.resolve(peers[x]) == Some(a);
    LearnedOrFull(r, table, Take(peers, MAX_DISCOVERED_PEERS), x, a);
  }

  lemma DeliverKeepsServed(r: Resolver, links: Links, net: Net, k: nat)
    requires Wired(links, net) && k < |net.flight| && AllServed(r, links, net)
    ensures Wired(links, Deliver(r, links, net, k)) && AllServed(r, links, Deliver(r, links, net, k))
  {
    var next := Deliver(r, links, net, k);
    forall i, n, a | 0 <= i < |links| && 0 <= n < |links[i]| ensures Served(r, next, i, links[i][n], a) {
      DeliverServes(r, links, net, k, i, n, a);
    }
  }

  lemma DeliverServes(r: Resolver, links: Links, net: Net, k: nat, i: nat, n: nat, a: Address)
    requires Wired(links, net) && k < |net.flight| && AllServed(r, links, net)
    requires i < |links| && n < |links[i]|
    ensures Served(r, Deliver(r, links, net, k), i, links[i][n], a)
  {
    var p, j, next := net.flight[k], links[i][n], Deliver(r, links, net, k);
    var rest := net.flight[..k] + net.flight[k + 1..];
    if Offers(r, next.tables[i], a) {
      if next.tables[i] != net.tables[i] {
        assert next.flight[|rest| + n] == Packet(j, next.tables[i]);
      } else {
        assert Served(r, net, i, j, a);
        if Knows(net.tables[j], a) {
          KnowsGrows(r, net.tables[j], Take(p.peers, MAX_DISCOVERED_PEERS), a);
        } else {
          var m :| 0 <= m < |net.flight| && net.flight[m].to == j && Offers(r, net.flight[m].peers, a);
          if m == k {
            OfferedIsKnown(r, net.tables[j], p.peers, a);
          } else {
            var at := if m < k then m else m - 1;
            assert next.flight[at] == net.flight[m];
          }
        }
      }
    }
  }

  /** What is in flight when nodes `i..` have announced their tables on all their connections. */
  ghost function AllAnnouncements(links: Links, tables: seq<seq<Address>>, i: nat): seq<Packet>
    requires i <= |links| == |tables|
    decreases |links| - i
  {
    if i == |links| then [] else Announce(links[i], tables[i]) + AllAnnouncements(links, tables, i + 1)
  }

  /** The start of the network: every node announces its configured table on every connection. */
  ghost function Start(links: Links, tables: seq<seq<Address>>): Net
    requires |links| == |tables|
  {
    Net(tables, AllAnnouncements(links, tables, 0))
  }

  lemma {:induction false} AnnouncementsTo(links: Links, tables: seq<seq<Address>>, i: nat)
    requires i <= |links| == |tables|
    requires forall j, k :: 0 <= j < |links| && 0 <= k < |links[j]| ==> links[j][k] < |links|
    ensures forall k :: 0 <= k < |AllAnnouncements(links, tables, i)| ==>
              AllAnnouncements(links, tables, i)[k].to < |links|
    ensures forall j, n | i <= j < |links| && 0 <= n < |links[j]| ::
              Packet(links[j][n], tables[j]) in AllAnnouncements(links, tables, i)
    decreases |links| - i
  {
    if i < |links| {
      AnnouncementsTo(links, tables, i + 1);
      var mine := Announce(links[i], tables[i]);
      forall n | 0 <= n < |links[i]| ensures Packet(links[i][n], tables[i]) in mine {
        assert mine[n] == Packet(links[i][n], tables[i]);
      }
    }
  }

  /** From the start on, what a node offers is known to its neighbours or on its way to them. */
  lemma StartIsServed(r: Resolver, links: Links, tables: seq<seq<Address>>)
    requires |links| == |tables|
    requires forall j, k :: 0 <= j < |links| && 0 <= k < |links[j]| ==> links[j][k] < |links|
    ensures Wired(links, Start(links, tables)) && AllServed(r, links, Start(links, tables))
  {
    AnnouncementsTo(links, tables, 0);
    var net := Start(links, tables);
    forall i, n, a | 0 <= i < |links| && 0 <= n < |links[i]| ensures Served(r, net, i, links[i][n], a) {
      assert Packet(links[i][n], tables[i]) in net.flight;
      var k :| 0 <= k < |net.flight| && net.flight[k] == Packet(links[i][n], tables[i]);
    }
  }

  /**
   When nothing is left in flight, everything a node offers is known to each of its neighbours
   whose table is not full.
   */
  lemma {:induction false} QuietMeansShared(
    r: Resolver, links: Links, net: Net, order: seq<nat>, i: nat, n: nat, a: Address)
    requires Wired(links, net) && AllServed(r, links, net) && IsRun(r, links, net, order)
    requires After(r, links, net, order).flight == []
    requires i < |links| && n < |links[i]|
    ensures var end := After(r, links, net, order);
            Wired(links, end) && (Offers(r, end.tables[i], a) ==> Knows(end.tables[links[i][n]], a))
    decreases |order|
  {
    if order == [] {
      assert Served(r, net, i, links[i][n], a);
    } else {
      DeliverKeepsServed(r, links, net, order[0]);
      QuietMeansShared(r, links, Deliver(r, links, net, order[0]), order[1..], i, n, a);
    }
  }

  /** Started this way, any schedule that empties the network leaves every neighbour informed, if its table has room. */
  lemma GossipInforms(r: Resolver, links: Links, tables: seq<seq<Address>>, order: seq<nat>, i: nat, n: nat, a: Address)
    requires |links| == |tables|
    requires forall j, k :: 0 <= j < |links| && 0 <= k < |links[j]| ==> links[j][k] < |links|
    requires Wired(links, Start(links, tables)) && IsRun(r, links, Start(links, tables), order)
    requires After(r, links, Start(links, tables), order).flight == []
    requires i < |links| && n < |links[i]|
    ensures var end := After(r, links, Start(links, tables), order);
            Offers(r, end.tables[i], a) ==> Knows(end.tables[links[i][n]], a)
  {
    StartIsServed(r, links, tables);
    QuietMeansShared(r, links, Start(links, tables), order, i, n, a);
  }

  ghost predicate Quiet(r: Resolver, links: Links, end: Net)
  {
    && Wired(links, end)
    && (forall i, n, a | 0 <= i < |links| && 0 <= n < |links[i]| && Offers(r, end.tables[i], a) ::
        Knows(end.tables[links[i][n]], a))
    && (forall i :: 0 <= i < |end.tables| ==> |end.tables[i]| < MAX_DISCOVERED_PEERS)
  }

  ghost predicate Path(links: Links, path: seq<nat>)
  {
    && path != []
    && (forall k :: 0 <= k < |path| ==> path[k] < |links|)
    && (forall k :: 0 <= k < |path| - 1 ==> path[k + 1] in links[path[k]])
  }

  /** In a quiet network without full tables, what one node offers is known along every path. */
  lemma {:induction false} KnownAlongPaths(r: Resolver, links: Links, end: Net, path: seq<nat>, a: Address)
    requires r.Canonical() && Quiet(r, links, end) && Path(links, path) && |path| >= 2
    requires Offers(r, end.tables[path[0]], a)
    ensures a in end.tables[path[|path| - 1]]
  {
    assert path[0 + 1] in links[path[0]];
    var n :| 0 <= n < |links[path[0]]| && links[path[0]][n] == path[1];
    assert Knows(end.tables[path[1]], a);
    if |path| > 2 {
      var x :| 0 <= x < |end.tables[path[1]]| && end.tables[path[1]][x] == a;
      var y :| 0 <= y < |end.tables[path[0]]| && r.resolve(end.tables[path[0]][y]) == Some(a);
      var rest := path[1..];
      assert Path(links, rest) by {
        forall k | 0 <= k < |rest| - 1 ensures rest[k + 1] in links[rest[k]] {
          assert path[(k + 1) + 1] in links[path[k + 1]];
        }
      }
      KnownAlongPaths(r, links, end, rest, a);
    }
  }
}
