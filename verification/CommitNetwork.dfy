/**
 Commit voting as a state machine over `n` validators: honest ones vote through their pin table and
 pool, faulty ones sign anything, certificates are assembled from quorums of signatures.
 */
module CommitNetwork {
  import opened Seqs
  import opened Quorum
  import opened VoteCollector
  import opened CommitPins

  /** `slotOf` reads the (epoch, commit round) that a certificate hash commits to. */
  datatype Config = Config(
    validators: set<Signer>, faulty: set<Signer>, active: seq<Signer>, slotOf: Hash -> Slot)

  ghost predicate ValidConfig(cfg: Config)
  {
    && cfg.faulty <= cfg.validators
    && |cfg.validators| >= 3 * |cfg.faulty| + 1
    && Distinct(cfg.active) && Elements(cfg.active) == cfg.validators
  }

  datatype Node = Node(epoch: nat, chain: seq<Hash>, pins: Pins, pool: seq<CommitVote>, clock: nat)

  /** `decided` records that the voter had already imported a block at the voted height. */
  datatype Signing = Signing(signer: Signer, hash: Hash, at: nat, how: How, decided: bool)

  datatype Net = Net(nodes: map<Signer, Node>, signings: seq<Signing>, certs: set<Hash>)

  datatype Step =
    | Prune(i: Signer)
    | Vote(i: Signer, snapshot: nat, hash: Hash, now: nat)
    | Deliver(i: Signer, vote: CommitVote)
    | DrainPool(i: Signer, hash: Hash)
    | Assemble(i: Signer, hash: Hash)
    | Certify(hash: Hash, signers: set<Signer>)
    | Import(i: Signer, hash: Hash)
    | EnterEpoch(i: Signer, epoch: nat)
    | FaultySign(i: Signer, hash: Hash)

  ghost function Initial(cfg: Config): Net
  {
    Net(map i | i in cfg.validators :: Node(1, [], map[], [], 0), [], {})
  }

  /** The commit round a block on top of `chain` must carry. */
  ghost function NextRound(cfg: Config, chain: seq<Hash>): nat
  {
    if chain == [] then 1 else cfg.slotOf(chain[|chain| - 1]).round + 1
  }

  ghost predicate SignedBy(net: Net, signer: Signer, hash: Hash)
  {
    exists s :: s in net.signings && s.signer == signer && s.hash == hash
  }

  ghost predicate Enabled(cfg: Config, net: Net, step: Step)
  {
    match step
    case Prune(i) => i in net.nodes
    case Vote(i, snapshot, hash, now) =>
      && i in net.nodes && i in cfg.validators - cfg.faulty
      && snapshot <= |net.nodes[i].chain|
      && net.nodes[i].clock <= now
      && cfg.slotOf(hash) == Slot(net.nodes[i].epoch, NextRound(cfg, net.nodes[i].chain[..snapshot]))
    case Deliver(i, vote) =>
      // an active signer and a valid signature on the hash; the other fields are only claims
      i in net.nodes && vote.signer in cfg.validators && SignedBy(net, vote.signer, vote.hash)
    case DrainPool(i, hash) => i in net.nodes
    case Assemble(i, hash) =>
      // enough pairs for the assembler, and no validator index twice for the block check
      && i in net.nodes
      && |SigPairs(net.nodes[i].pool, cfg.active, hash)| >= RequiredQuorum(|cfg.validators|)
      && |SigningIndices(net.nodes[i].pool, cfg.active, hash)| == |SigPairs(net.nodes[i].pool, cfg.active, hash)|
    case Certify(hash, signers) =>
      && signers <= cfg.validators && |signers| >= RequiredQuorum(|cfg.validators|)
      && forall i :: i in signers ==> SignedBy(net, i, hash)
    case Import(i, hash) =>
      && i in net.nodes && hash in net.certs
      && var chain := net.nodes[i].chain;
         && cfg.slotOf(hash).round == NextRound(cfg, chain)
         && if chain == [] then cfg.slotOf(hash).epoch == net.nodes[i].epoch
            else
              var tipEpoch := cfg.slotOf(chain[|chain| - 1]).epoch;
              tipEpoch <= cfg.slotOf(hash).epoch <= tipEpoch + 1
    case EnterEpoch(i, epoch) => i in net.nodes && epoch > net.nodes[i].epoch
    case FaultySign(i, hash) => i in cfg.faulty
  }

  ghost function WithNode(net: Net, i: Signer, node: Node): Net
  {
    net.(nodes := net.nodes[i := node])
  }

  ghost function VoteStep(cfg: Config, net: Net, i: Signer, snapshot: nat, hash: Hash, now: nat): Net
    requires Enabled(cfg, net, Vote(i, snapshot, hash, now))
  {
    var node := net.nodes[i];
    var slot := cfg.slotOf(hash);
    match Decide(node.pins, slot, hash, now)
    case Refuse => WithNode(net, i, node.(clock := now))
    case Cast(how) =>
      var vote := CommitVote(slot.epoch, slot.round, snapshot + 1, hash, i, 0);
      Net(net.nodes[i := node.(
            clock := now, pins := Repinned(node.pins, slot, hash, now), pool := Added(node.pool, vote))],
          net.signings + [Signing(i, hash, now, how, snapshot < |node.chain|)],
          net.certs)
  }

  ghost function Next(cfg: Config, net: Net, step: Step): Net
    requires Enabled(cfg, net, step)
  {
    match step
    case Prune(i) =>
      var node := net.nodes[i];
      WithNode(net, i, node.(pins := Pruned(node.pins, node.epoch, |node.chain|)))
    case Vote(i, snapshot, hash, now) => VoteStep(cfg, net, i, snapshot, hash, now)
    case Deliver(i, vote) => WithNode(net, i, net.nodes[i].(pool := Added(net.nodes[i].pool, vote)))
    case DrainPool(i, hash) => WithNode(net, i, net.nodes[i].(pool := Drained(net.nodes[i].pool, hash)))
    case Assemble(i, hash) => net.(certs := net.certs + {hash})
    case Certify(hash, signers) => net.(certs := net.certs + {hash})
    case Import(i, hash) => WithNode(net, i, net.nodes[i].(chain := net.nodes[i].chain + [hash]))
    case EnterEpoch(i, epoch) => WithNode(net, i, net.nodes[i].(epoch := epoch))
    case FaultySign(i, hash) => net.(signings := net.signings + [Signing(i, hash, 0, First, false)])
  }

  ghost predicate ValidRun(cfg: Config, steps: seq<Step>)
    decreases |steps|, 0
  {
    steps == [] ||
    (ValidRun(cfg, steps[..|steps| - 1]) && Enabled(cfg, After(cfg, steps[..|steps| - 1]), steps[|steps| - 1]))
  }

  ghost function After(cfg: Config, steps: seq<Step>): Net
    requires ValidRun(cfg, steps)
    decreases |steps|, 1
  {
    if steps == [] then Initial(cfg)
    else Next(cfg, After(cfg, steps[..|steps| - 1]), steps[|steps| - 1])
  }

  // ----- the inductive invariant

  ghost function SignersOf(cfg: Config, net: Net, hash: Hash): set<Signer>
  {
    set i | i in cfg.validators && SignedBy(net, i, hash)
  }

  ghost predicate CertsBacked(cfg: Config, net: Net)
  {
    forall h :: h in net.certs ==> |SignersOf(cfg, net, h)| >= RequiredQuorum(|cfg.validators|)
  }

  ghost predicate PoolsAuthentic(cfg: Config, net: Net)
  {
    forall i :: i in net.nodes ==> PoolAuthentic(cfg, net, net.nodes[i].pool)
  }

  /** Every pooled vote carries a signature its signer really made, and no key is held twice. */
  ghost predicate PoolAuthentic(cfg: Config, net: Net, pool: seq<CommitVote>)
  {
    && UniqueKeys(pool)
    && forall v :: v in pool ==> v.signer in cfg.validators && SignedBy(net, v.signer, v.hash)
  }

  /** The commit round of a block is its height, which is what ties pins (by round) to the pool (by height). */
  ghost predicate RoundsAreHeights(cfg: Config, net: Net)
  {
    forall i :: i in net.nodes ==> ChainRounds(cfg, net.certs, net.nodes[i].chain)
  }

  ghost predicate ChainRounds(cfg: Config, certs: set<Hash>, chain: seq<Hash>)
  {
    forall k :: 0 <= k < |chain| ==> chain[k] in certs && cfg.slotOf(chain[k]).round == k + 1
  }

  ghost predicate By(cfg: Config, net: Net, k: int, i: Signer, slot: Slot)
  {
    0 <= k < |net.signings| && net.signings[k].signer == i && cfg.slotOf(net.signings[k].hash) == slot
  }

  /** Between two different certificates signed at one slot lies a release or a vote at a decided height. */
  ghost predicate Escape(cfg: Config, net: Net, r: int, i: Signer, slot: Slot)
  {
    By(cfg, net, r, i, slot) && (net.signings[r].how == Released || net.signings[r].decided)
  }

  ghost predicate SigningsInPast(cfg: Config, net: Net, i: Signer)
    requires i in net.nodes
  {
    forall k :: 0 <= k < |net.signings| && net.signings[k].signer == i ==>
      cfg.slotOf(net.signings[k].hash).epoch <= net.nodes[i].epoch && net.signings[k].at <= net.nodes[i].clock
  }

  ghost predicate PinsBacked(cfg: Config, net: Net, i: Signer)
    requires i in net.nodes
  {
    forall slot :: slot in net.nodes[i].pins ==>
      && net.nodes[i].pins[slot].at <= net.nodes[i].clock
      && exists k :: By(cfg, net, k, i, slot) && net.signings[k].hash == net.nodes[i].pins[slot].hash
                     && net.signings[k].at == net.nodes[i].pins[slot].at
  }

  /** A slot of the current epoch above the tip: its pin, once set, cannot have been pruned. */
  ghost predicate Live(net: Net, i: Signer, slot: Slot)
    requires i in net.nodes
  {
    slot.epoch == net.nodes[i].epoch && slot.round > |net.nodes[i].chain|
  }

  ghost predicate LivePinned(cfg: Config, net: Net, i: Signer)
    requires i in net.nodes
  {
    forall k, slot :: By(cfg, net, k, i, slot) && Live(net, i, slot) ==>
      && slot in net.nodes[i].pins
      && (net.signings[k].hash == net.nodes[i].pins[slot].hash || exists r :: r > k && Escape(cfg, net, r, i, slot))
  }

  ghost predicate EscapesExplain(cfg: Config, net: Net, i: Signer)
  {
    forall k, m, slot :: By(cfg, net, k, i, slot) && By(cfg, net, m, i, slot) && k < m
                         && net.signings[k].hash != net.signings[m].hash ==>
      exists r :: k < r <= m && Escape(cfg, net, r, i, slot)
  }

  /** A release follows the vote it abandons by the full release window. */
  ghost predicate ReleasesWaited(cfg: Config, net: Net, i: Signer)
  {
    forall m, slot :: By(cfg, net, m, i, slot) && net.signings[m].how == Released ==>
      exists k :: 0 <= k < m && By(cfg, net, k, i, slot) && net.signings[k].hash != net.signings[m].hash
                  && net.signings[k].at + COMMIT_VOTE_PIN_RELEASE_MS <= net.signings[m].at
  }

  ghost predicate HonestInv(cfg: Config, net: Net, i: Signer)
    requires i in net.nodes
  {
    && SigningsInPast(cfg, net, i)
    && PinsBacked(cfg, net, i)
    && LivePinned(cfg, net, i)
    && EscapesExplain(cfg, net, i)
    && ReleasesWaited(cfg, net, i)
  }

  ghost predicate Inv(cfg: Config, net: Net)
  {
    && net.nodes.Keys == cfg.validators
    && CertsBacked(cfg, net)
    && PoolsAuthentic(cfg, net)
    && RoundsAreHeights(cfg, net)
    && forall i :: i in cfg.validators - cfg.faulty ==> HonestInv(cfg, net, i)
  }

  lemma SignedByGrows(cfg: Config, net: Net, net': Net, hash: Hash)
    requires net.signings <= net'.signings
    ensures forall i :: SignedBy(net, i, hash) ==> SignedBy(net', i, hash)
    ensures |SignersOf(cfg, net, hash)| <= |SignersOf(cfg, net', hash)|
  {
    forall i | SignedBy(net, i, hash) ensures SignedBy(net', i, hash) {
      var s :| s in net.signings && s.signer == i && s.hash == hash;
      assert s in net'.signings;
    }
    SubsetCardinality(SignersOf(cfg, net, hash), SignersOf(cfg, net', hash));
  }

  /** A step that leaves the signing log alone and only forgets pins that are no longer live. */
  lemma QuietStep(cfg: Config, net: Net, net': Net, i: Signer)
    requires i in net.nodes && i in net'.nodes && HonestInv(cfg, net, i)
    requires net'.signings == net.signings
    requires var n, n' := net.nodes[i], net'.nodes[i];
             && n.epoch <= n'.epoch && |n.chain| <= |n'.chain| && n.clock <= n'.clock
             && (forall slot :: slot in n'.pins ==> slot in n.pins && n'.pins[slot] == n.pins[slot])
             && (forall slot :: slot in n.pins && Live(net', i, slot) ==> slot in n'.pins)
    ensures HonestInv(cfg, net', i)
  {
    assert forall k, slot :: By(cfg, net', k, i, slot) == By(cfg, net, k, i, slot);
    assert forall k, slot :: Escape(cfg, net', k, i, slot) == Escape(cfg, net, k, i, slot);
    forall k, slot | By(cfg, net', k, i, slot) && Live(net', i, slot)
      ensures slot in net'.nodes[i].pins
      ensures net'.signings[k].hash == net'.nodes[i].pins[slot].hash ||
                exists r :: r > k && Escape(cfg, net', r, i, slot)
    {
      assert By(cfg, net, k, i, slot) && Live(net, i, slot);
    }
    assert PinsBacked(cfg, net', i) by {
      forall slot | slot in net'.nodes[i].pins
        ensures net'.nodes[i].pins[slot].at <= net'.nodes[i].clock
        ensures exists k :: By(cfg, net', k, i, slot) && net'.signings[k].hash == net'.nodes[i].pins[slot].hash
                            && net'.signings[k].at == net'.nodes[i].pins[slot].at
      {
        var k :| By(cfg, net, k, i, slot) && net.signings[k].hash == net.nodes[i].pins[slot].hash
                 && net.signings[k].at == net.nodes[i].pins[slot].at;
        assert By(cfg, net', k, i, slot);
      }
    }
    assert EscapesExplain(cfg, net', i) by {
      forall k, m, slot | By(cfg, net', k, i, slot) && By(cfg, net', m, i, slot) && k < m
                          && net'.signings[k].hash != net'.signings[m].hash
        ensures exists r :: k < r <= m && Escape(cfg, net', r, i, slot)
      {
        assert By(cfg, net, k, i, slot) && By(cfg, net, m, i, slot);
        var r :| k < r <= m && Escape(cfg, net, r, i, slot);
        assert Escape(cfg, net', r, i, slot);
      }
    }
    assert ReleasesWaited(cfg, net', i) by {
      forall m, slot | By(cfg, net', m, i, slot) && net'.signings[m].how == Released
        ensures exists k :: 0 <= k < m && By(cfg, net', k, i, slot) && net'.signings[k].hash != net'.signings[m].hash
                            && net'.signings[k].at + COMMIT_VOTE_PIN_RELEASE_MS <= net'.signings[m].at
      {
        assert By(cfg, net, m, i, slot);
        var k :| 0 <= k < m && By(cfg, net, k, i, slot) && net.signings[k].hash != net.signings[m].hash
                 && net.signings[k].at + COMMIT_VOTE_PIN_RELEASE_MS <= net.signings[m].at;
        assert By(cfg, net', k, i, slot);
      }
    }
  }

  /** Someone else's signature does not touch an honest validator's record. */
  lemma OthersSign(cfg: Config, net: Net, net': Net, i: Signer, s: Signing)
    requires i in net.nodes && i in net'.nodes && HonestInv(cfg, net, i)
    requires net'.signings == net.signings + [s] && s.signer != i
    requires net'.nodes[i] == net.nodes[i]
    ensures HonestInv(cfg, net', i)
  {
    LogGrows(cfg, net, net', i, s);
    assert PinsBacked(cfg, net', i) by {
      forall slot | slot in net'.nodes[i].pins
        ensures exists k :: By(cfg, net', k, i, slot) && net'.signings[k].hash == net'.nodes[i].pins[slot].hash
                            && net'.signings[k].at == net'.nodes[i].pins[slot].at
      {
        var k :| By(cfg, net, k, i, slot) && net.signings[k].hash == net.nodes[i].pins[slot].hash
                 && net.signings[k].at == net.nodes[i].pins[slot].at;
        assert By(cfg, net', k, i, slot);
      }
    }
    forall k, slot | By(cfg, net', k, i, slot) && Live(net', i, slot)
      ensures slot in net'.nodes[i].pins
      ensures net'.signings[k].hash == net'.nodes[i].pins[slot].hash ||
                exists r :: r > k && Escape(cfg, net', r, i, slot)
    {
      assert By(cfg, net, k, i, slot) && Live(net, i, slot);
    }
    assert EscapesExplain(cfg, net', i) by {
      forall k, m, slot | By(cfg, net', k, i, slot) && By(cfg, net', m, i, slot) && k < m
                          && net'.signings[k].hash != net'.signings[m].hash
        ensures exists r :: k < r <= m && Escape(cfg, net', r, i, slot)
      {
        OldEscape(cfg, net, net', i, k, m, slot);
      }
    }
    assert ReleasesWaited(cfg, net', i) by {
      forall m, slot | By(cfg, net', m, i, slot) && net'.signings[m].how == Released
        ensures exists k :: 0 <= k < m && By(cfg, net', k, i, slot) && net'.signings[k].hash != net'.signings[m].hash
                            && net'.signings[k].at + COMMIT_VOTE_PIN_RELEASE_MS <= net'.signings[m].at
      {
        OldRelease(cfg, net, net', i, m, slot);
      }
    }
  }

  lemma LogGrows(cfg: Config, net: Net, net': Net, i: Signer, s: Signing)
    requires net'.signings == net.signings + [s]
    ensures forall k, slot :: k != |net.signings| ==> By(cfg, net', k, i, slot) == By(cfg, net, k, i, slot)
    ensures forall k, slot :: k != |net.signings| ==> Escape(cfg, net', k, i, slot) == Escape(cfg, net, k, i, slot)
    ensures forall slot :: By(cfg, net', |net.signings|, i, slot) <==> s.signer == i && cfg.slotOf(s.hash) == slot
    ensures forall k :: 0 <= k < |net.signings| ==> net'.signings[k] == net.signings[k]
  {
  }

  lemma OldEscape(cfg: Config, net: Net, net': Net, i: Signer, k: int, m: int, slot: Slot)
    requires net.signings <= net'.signings && i in net.nodes && EscapesExplain(cfg, net, i)
    requires By(cfg, net, k, i, slot) && By(cfg, net, m, i, slot) && k < m
    requires net.signings[k].hash != net.signings[m].hash
    ensures exists r :: k < r <= m && Escape(cfg, net', r, i, slot)
  {
    var r :| k < r <= m && Escape(cfg, net, r, i, slot);
    assert Escape(cfg, net', r, i, slot);
  }

  lemma OldRelease(cfg: Config, net: Net, net': Net, i: Signer, m: int, slot: Slot)
    requires net.signings <= net'.signings && i in net.nodes && ReleasesWaited(cfg, net, i)
    requires By(cfg, net, m, i, slot) && net.signings[m].how == Released
    ensures exists k :: 0 <= k < m && By(cfg, net', k, i, slot) && net'.signings[k].hash != net'.signings[m].hash
                        && net'.signings[k].at + COMMIT_VOTE_PIN_RELEASE_MS <= net'.signings[m].at
  {
    var k :| 0 <= k < m && By(cfg, net, k, i, slot) && net.signings[k].hash != net.signings[m].hash
             && net.signings[k].at + COMMIT_VOTE_PIN_RELEASE_MS <= net.signings[m].at;
    assert By(cfg, net', k, i, slot);
  }

  /** The chain a snapshot was read from ends in a round equal to its height. */
  lemma SnapshotRound(cfg: Config, net: Net, i: Signer, snapshot: nat)
    requires i in net.nodes && RoundsAreHeights(cfg, net) && snapshot <= |net.nodes[i].chain|
    ensures NextRound(cfg, net.nodes[i].chain[..snapshot]) == snapshot + 1
  {
  }

  /** The premises of an honest vote that is cast, shared by the lemmas below. */
  ghost predicate Casts(cfg: Config, net: Net, i: Signer, snapshot: nat, hash: Hash, now: nat)
  {
    && Enabled(cfg, net, Vote(i, snapshot, hash, now))
    && i in net.nodes && HonestInv(cfg, net, i) && RoundsAreHeights(cfg, net)
    && Decide(net.nodes[i].pins, cfg.slotOf(hash), hash, now).Cast?
  }

  lemma OwnVotePins(cfg: Config, net: Net, i: Signer, snapshot: nat, hash: Hash, now: nat)
    requires Casts(cfg, net, i, snapshot, hash, now)
    ensures PinsBacked(cfg, VoteStep(cfg, net, i, snapshot, hash, now), i)
  {
    var net' := VoteStep(cfg, net, i, snapshot, hash, now);
    var node, node', last := net.nodes[i], net'.nodes[i], |net.signings|;
    LogGrows(cfg, net, net', i, net'.signings[last]);
    forall slot | slot in node'.pins
      ensures node'.pins[slot].at <= node'.clock
      ensures exists k :: By(cfg, net', k, i, slot) && net'.signings[k].hash == node'.pins[slot].hash
                          && net'.signings[k].at == node'.pins[slot].at
    {
      if slot in node.pins && node'.pins[slot] == node.pins[slot] {
        var k :| By(cfg, net, k, i, slot) && net.signings[k].hash == node.pins[slot].hash
                 && net.signings[k].at == node.pins[slot].at;
        assert By(cfg, net', k, i, slot);
      } else {
        assert By(cfg, net', last, i, slot);
      }
    }
  }

  lemma OwnVoteLive(cfg: Config, net: Net, i: Signer, snapshot: nat, hash: Hash, now: nat)
    requires Casts(cfg, net, i, snapshot, hash, now)
    ensures LivePinned(cfg, VoteStep(cfg, net, i, snapshot, hash, now), i)
  {
    var net' := VoteStep(cfg, net, i, snapshot, hash, now);
    var node, node', last := net.nodes[i], net'.nodes[i], |net.signings|;
    LogGrows(cfg, net, net', i, net'.signings[last]);
    SnapshotRound(cfg, net, i, snapshot);
    forall k, slot | By(cfg, net', k, i, slot) && Live(net', i, slot)
      ensures slot in node'.pins
      ensures net'.signings[k].hash == node'.pins[slot].hash || exists r :: r > k && Escape(cfg, net', r, i, slot)
    {
      if k != last {
        assert By(cfg, net, k, i, slot) && Live(net, i, slot);
        if net.signings[k].hash == node.pins[slot].hash && node'.pins[slot] != node.pins[slot] {
          assert Escape(cfg, net', last, i, slot);
        } else if net.signings[k].hash != node.pins[slot].hash {
          var r :| r > k && Escape(cfg, net, r, i, slot);
          assert Escape(cfg, net', r, i, slot);
        }
      }
    }
  }

  lemma OwnVoteEscapes(cfg: Config, net: Net, i: Signer, snapshot: nat, hash: Hash, now: nat)
    requires Casts(cfg, net, i, snapshot, hash, now)
    ensures EscapesExplain(cfg, VoteStep(cfg, net, i, snapshot, hash, now), i)
  {
    var net' := VoteStep(cfg, net, i, snapshot, hash, now);
    var last := |net.signings|;
    LogGrows(cfg, net, net', i, net'.signings[last]);
    SnapshotRound(cfg, net, i, snapshot);
    forall k, m, slot | By(cfg, net', k, i, slot) && By(cfg, net', m, i, slot) && k < m
                        && net'.signings[k].hash != net'.signings[m].hash
      ensures exists r :: k < r <= m && Escape(cfg, net', r, i, slot)
    {
      if m < last {
        OldEscape(cfg, net, net', i, k, m, slot);
      } else if net'.signings[last].decided || net'.signings[last].how == Released {
        assert Escape(cfg, net', last, i, slot);
      } else {
        assert By(cfg, net, k, i, slot) && Live(net, i, slot);
        var r :| r > k && Escape(cfg, net, r, i, slot);
        assert Escape(cfg, net', r, i, slot);
      }
    }
  }

  lemma OwnVoteReleases(cfg: Config, net: Net, i: Signer, snapshot: nat, hash: Hash, now: nat)
    requires Casts(cfg, net, i, snapshot, hash, now)
    ensures ReleasesWaited(cfg, VoteStep(cfg, net, i, snapshot, hash, now), i)
  {
    var net' := VoteStep(cfg, net, i, snapshot, hash, now);
    var node, last := net.nodes[i], |net.signings|;
    LogGrows(cfg, net, net', i, net'.signings[last]);
    forall m, slot | By(cfg, net', m, i, slot) && net'.signings[m].how == Released
      ensures exists k :: 0 <= k < m && By(cfg, net', k, i, slot) && net'.signings[k].hash != net'.signings[m].hash
                          && net'.signings[k].at + COMMIT_VOTE_PIN_RELEASE_MS <= net'.signings[m].at
    {
      if m < last {
        OldRelease(cfg, net, net', i, m, slot);
      } else {
        var k :| By(cfg, net, k, i, slot) && net.signings[k].hash == node.pins[slot].hash
                 && net.signings[k].at == node.pins[slot].at;
        assert By(cfg, net', k, i, slot);
      }
    }
  }

  /** An honest vote keeps the voter's own record consistent. */
  lemma OwnVote(cfg: Config, net: Net, i: Signer, snapshot: nat, hash: Hash, now: nat)
    requires Casts(cfg, net, i, snapshot, hash, now)
    ensures HonestInv(cfg, VoteStep(cfg, net, i, snapshot, hash, now), i)
  {
    OwnVotePins(cfg, net, i, snapshot, hash, now);
    OwnVoteLive(cfg, net, i, snapshot, hash, now);
    OwnVoteEscapes(cfg, net, i, snapshot, hash, now);
    OwnVoteReleases(cfg, net, i, snapshot, hash, now);
  }

  // ----- every step keeps the invariant

  lemma NextKeepsHonest(cfg: Config, net: Net, step: Step, i: Signer)
    requires ValidConfig(cfg) && Inv(cfg, net) && Enabled(cfg, net, step)
    requires i in cfg.validators - cfg.faulty
    ensures HonestInv(cfg, Next(cfg, net, step), i)
  {
    match step
    case Vote(j, snapshot, hash, now) => VoteKeepsHonest(cfg, net, j, snapshot, hash, now, i);
    case FaultySign(j, hash) =>
      var net' := Next(cfg, net, step);
      OthersSign(cfg, net, net', i, net'.signings[|net.signings|]);
    case _ => QuietKeepsHonest(cfg, net, step, i);
  }

  lemma VoteKeepsHonest(cfg: Config, net: Net, j: Signer, snapshot: nat, hash: Hash, now: nat, i: Signer)
    requires Enabled(cfg, net, Vote(j, snapshot, hash, now))
    requires i in net.nodes && HonestInv(cfg, net, i) && RoundsAreHeights(cfg, net)
    ensures HonestInv(cfg, VoteStep(cfg, net, j, snapshot, hash, now), i)
  {
    var net' := VoteStep(cfg, net, j, snapshot, hash, now);
    if Decide(net.nodes[j].pins, cfg.slotOf(hash), hash, now).Refuse? {
      QuietStep(cfg, net, net', i);
    } else if j == i {
      OwnVote(cfg, net, i, snapshot, hash, now);
    } else {
      OthersSign(cfg, net, net', i, net'.signings[|net.signings|]);
    }
  }

  lemma QuietKeepsHonest(cfg: Config, net: Net, step: Step, i: Signer)
    requires Enabled(cfg, net, step) && !step.Vote? && !step.FaultySign?
    requires i in net.nodes && HonestInv(cfg, net, i)
    ensures HonestInv(cfg, Next(cfg, net, step), i)
  {
    QuietStep(cfg, net, Next(cfg, net, step), i);
  }

  lemma PoolKeptOrExtended(
    cfg: Config, net: Net, net': Net, pool: seq<CommitVote>, pool': seq<CommitVote>, vote: CommitVote)
    requires PoolAuthentic(cfg, net, pool) && net.signings <= net'.signings
    requires UniqueKeys(pool')
    requires forall v :: v in pool' ==>
              v in pool || (v == vote && vote.signer in cfg.validators && SignedBy(net', vote.signer, vote.hash))
    ensures PoolAuthentic(cfg, net', pool')
  {
    forall v | v in pool' ensures v.signer in cfg.validators && SignedBy(net', v.signer, v.hash) {
      if v in pool {
        SignedByGrows(cfg, net, net', v.hash);
      }
    }
  }

  lemma NextKeepsPools(cfg: Config, net: Net, step: Step)
    requires ValidConfig(cfg) && Inv(cfg, net) && Enabled(cfg, net, step)
    ensures PoolsAuthentic(cfg, Next(cfg, net, step))
  {
    var net' := Next(cfg, net, step);
    forall i | i in net'.nodes ensures PoolAuthentic(cfg, net', net'.nodes[i].pool) {
      NextKeepsPool(cfg, net, step, i);
    }
  }

  lemma NextKeepsPool(cfg: Config, net: Net, step: Step, i: Signer)
    requires ValidConfig(cfg) && Inv(cfg, net) && Enabled(cfg, net, step) && i in net.nodes
    ensures i in Next(cfg, net, step).nodes
    ensures PoolAuthentic(cfg, Next(cfg, net, step), Next(cfg, net, step).nodes[i].pool)
  {
    var net', pool := Next(cfg, net, step), net.nodes[i].pool;
    if net'.nodes[i].pool == pool {
      PoolKeptOrExtended(cfg, net, net', pool, pool, CommitVote(0, 0, 0, 0, i, 0));
    } else {
      PoolStep(cfg, net, step, i);
    }
  }

  lemma PoolStep(cfg: Config, net: Net, step: Step, i: Signer)
    requires Enabled(cfg, net, step) && i in net.nodes && PoolAuthentic(cfg, net, net.nodes[i].pool)
    requires Next(cfg, net, step).nodes[i].pool != net.nodes[i].pool
    ensures PoolAuthentic(cfg, Next(cfg, net, step), Next(cfg, net, step).nodes[i].pool)
  {
    match step
    case Vote(_, snapshot, hash, now) => OwnVotePool(cfg, net, i, snapshot, hash, now);
    case Deliver(_, v) =>
      AddedUniqueKeys(net.nodes[i].pool, v);
      PoolKeptOrExtended(cfg, net, Next(cfg, net, step), net.nodes[i].pool, Added(net.nodes[i].pool, v), v);
    case DrainPool(_, hash) =>
      FilterKeepsUniqueKeys((v: CommitVote) => v.hash != hash, net.nodes[i].pool);
  }

  lemma OwnVotePool(cfg: Config, net: Net, i: Signer, snapshot: nat, hash: Hash, now: nat)
    requires Enabled(cfg, net, Vote(i, snapshot, hash, now)) && PoolAuthentic(cfg, net, net.nodes[i].pool)
    ensures var net' := VoteStep(cfg, net, i, snapshot, hash, now);
            net'.nodes[i].pool != net.nodes[i].pool ==> PoolAuthentic(cfg, net', net'.nodes[i].pool)
  {
    var net', pool := VoteStep(cfg, net, i, snapshot, hash, now), net.nodes[i].pool;
    if net'.nodes[i].pool != pool {
      var vote := CommitVote(cfg.slotOf(hash).epoch, cfg.slotOf(hash).round, snapshot + 1, hash, i, 0);
      AddedUniqueKeys(pool, vote);
      assert net'.signings[|net.signings|] in net'.signings;
      assert SignedBy(net', i, hash);
      PoolKeptOrExtended(cfg, net, net', pool, Added(pool, vote), vote);
    }
  }

  lemma AddedUniqueKeys(pool: seq<CommitVote>, vote: CommitVote)
    requires UniqueKeys(pool)
    ensures UniqueKeys(Added(pool, vote))
    ensures forall v :: v in Added(pool, vote) ==> v in pool || v == vote
  {
    if !AlreadyHeld(pool, vote) {
      var kept := Others(Evicted(pool), vote);
      FilterKeepsUniqueKeys((v: CommitVote) => !SameSignerAtHeight(v, vote), Evicted(pool));
      forall k | 0 <= k < |kept| ensures !SameSignerAtHeight(kept[k], vote) {
        assert kept[k] in kept;
      }
    }
  }

  /** An assembler that passes the index check holds signatures of a quorum of different validators. */
  lemma AssembledIsBacked(cfg: Config, net: Net, i: Signer, hash: Hash)
    requires ValidConfig(cfg) && PoolsAuthentic(cfg, net) && Enabled(cfg, net, Assemble(i, hash))
    ensures |SignersOf(cfg, net, hash)| >= RequiredQuorum(|cfg.validators|)
  {
    var pool := net.nodes[i].pool;
    var indices := SigningIndices(pool, cfg.active, hash);
    SigPairsCountSigners(pool, cfg.active, hash);
    var signers := set idx | idx in indices :: cfg.active[idx];
    ImageCardinality(cfg.active, indices);
    forall s | s in signers ensures s in SignersOf(cfg, net, hash) {
      var idx :| idx in indices && cfg.active[idx] == s;
      var v :| v in pool && v.hash == hash && v.signer in cfg.active && Position(cfg.active, v.signer).value == idx;
      assert v.signer == s;
    }
    SubsetCardinality(signers, SignersOf(cfg, net, hash));
  }

  lemma {:induction false} ImageCardinality(active: seq<Signer>, indices: set<nat>)
    requires Distinct(active) && forall idx :: idx in indices ==> idx < |active|
    ensures |set idx | idx in indices :: active[idx]| == |indices|
  {
    if indices != {} {
      var first :| first in indices;
      var rest := indices - {first};
      ImageCardinality(active, rest);
      assert (set idx | idx in indices :: active[idx]) == (set idx | idx in rest :: active[idx]) + {active[first]};
    }
  }

  lemma NextKeepsCerts(cfg: Config, net: Net, step: Step)
    requires ValidConfig(cfg) && Inv(cfg, net) && Enabled(cfg, net, step)
    ensures CertsBacked(cfg, Next(cfg, net, step))
  {
    var net' := Next(cfg, net, step);
    forall h | h in net'.certs ensures |SignersOf(cfg, net', h)| >= RequiredQuorum(|cfg.validators|) {
      SignedByGrows(cfg, net, net', h);
      if h !in net.certs {
        if step.Assemble? {
          AssembledIsBacked(cfg, net, step.i, h);
        } else {
          SubsetCardinality(step.signers, SignersOf(cfg, net, h));
        }
      }
    }
  }

  lemma NextKeepsRounds(cfg: Config, net: Net, step: Step)
    requires RoundsAreHeights(cfg, net) && Enabled(cfg, net, step)
    ensures RoundsAreHeights(cfg, Next(cfg, net, step))
  {
    var net' := Next(cfg, net, step);
    forall i | i in net'.nodes ensures ChainRounds(cfg, net'.certs, net'.nodes[i].chain) {
      if step.Import? && step.i == i {
        ImportKeepsRounds(cfg, net, i, step.hash);
      }
    }
  }

  lemma ImportKeepsRounds(cfg: Config, net: Net, i: Signer, hash: Hash)
    requires RoundsAreHeights(cfg, net) && Enabled(cfg, net, Import(i, hash))
    ensures ChainRounds(cfg, net.certs, net.nodes[i].chain + [hash])
  {
    var chain := net.nodes[i].chain;
    SnapshotRound(cfg, net, i, |chain|);
    assert chain[..|chain|] == chain;
  }

  lemma NextKeepsInv(cfg: Config, net: Net, step: Step)
    requires ValidConfig(cfg) && Inv(cfg, net) && Enabled(cfg, net, step)
    ensures Inv(cfg, Next(cfg, net, step))
  {
    NextKeepsCerts(cfg, net, step);
    NextKeepsPools(cfg, net, step);
    NextKeepsRounds(cfg, net, step);
    forall i | i in cfg.validators - cfg.faulty ensures HonestInv(cfg, Next(cfg, net, step), i) {
      NextKeepsHonest(cfg, net, step, i);
    }
  }

  lemma {:induction false} RunKeepsInv(cfg: Config, steps: seq<Step>)
    requires ValidConfig(cfg) && ValidRun(cfg, steps)
    ensures Inv(cfg, After(cfg, steps))
  {
    if steps != [] {
      RunKeepsInv(cfg, steps[..|steps| - 1]);
      NextKeepsInv(cfg, After(cfg, steps[..|steps| - 1]), steps[|steps| - 1]);
    }
  }

  ghost predicate ChainEpochs(cfg: Config, chain: seq<Hash>)
  {
    forall k :: 0 < k < |chain| ==>
      cfg.slotOf(chain[k - 1]).epoch <= cfg.slotOf(chain[k]).epoch <= cfg.slotOf(chain[k - 1]).epoch + 1
  }

  /** On every chain of every run the certificates follow each other by one round and at most one epoch. */
  lemma {:induction false} ChainsStepByOne(cfg: Config, steps: seq<Step>, i: Signer)
    requires ValidConfig(cfg) && ValidRun(cfg, steps) && i in After(cfg, steps).nodes
    ensures ChainEpochs(cfg, After(cfg, steps).nodes[i].chain)
    ensures var chain := After(cfg, steps).nodes[i].chain;
            forall k :: 0 <= k < |chain| ==> cfg.slotOf(chain[k]).round == k + 1
  {
    RunKeepsInv(cfg, steps);
    if steps != [] {
      ChainsStepByOne(cfg, steps[..|steps| - 1], i);
      ExtendedChainEpochs(cfg, After(cfg, steps[..|steps| - 1]), steps[|steps| - 1], i);
    }
  }

  lemma ExtendedChainEpochs(cfg: Config, net: Net, step: Step, i: Signer)
    requires Enabled(cfg, net, step) && i in net.nodes && ChainEpochs(cfg, net.nodes[i].chain)
    ensures i in Next(cfg, net, step).nodes && ChainEpochs(cfg, Next(cfg, net, step).nodes[i].chain)
  {
  }

  /** A vote that is cast is the newest of the own pool, filed at the height of the block it would certify. */
  lemma OwnVoteIsFiled(cfg: Config, net: Net, i: Signer, snapshot: nat, hash: Hash, now: nat)
    requires RoundsAreHeights(cfg, net) && Enabled(cfg, net, Vote(i, snapshot, hash, now))
    requires Decide(net.nodes[i].pins, cfg.slotOf(hash), hash, now).Cast?
    ensures var node := Next(cfg, net, Vote(i, snapshot, hash, now)).nodes[i];
            exists v :: v in node.pool && v.signer == i && v.hash == hash && v.height == cfg.slotOf(hash).round
                        && v.epoch == node.epoch == cfg.slotOf(hash).epoch
  {
    var node, slot := net.nodes[i], cfg.slotOf(hash);
    SnapshotRound(cfg, net, i, snapshot);
    AddedExactly(node.pool, CommitVote(slot.epoch, slot.round, snapshot + 1, hash, i, 0));
  }

  // ----- safety over every run

  /** The honest validators whose signatures are on both certificates. */
  ghost function HonestOnBoth(cfg: Config, net: Net, h1: Hash, h2: Hash): set<Signer>
  {
    SignersOf(cfg, net, h1) * SignersOf(cfg, net, h2) - cfg.faulty
  }

  /** A release by `i` at `slot`, and the vote for another certificate that it let go a full window earlier. */
  ghost predicate TimedRelease(cfg: Config, net: Net, i: Signer, slot: Slot)
  {
    exists k, m :: k < m && By(cfg, net, k, i, slot) && By(cfg, net, m, i, slot)
                   && net.signings[m].how == Released && net.signings[k].hash != net.signings[m].hash
                   && net.signings[k].at + COMMIT_VOTE_PIN_RELEASE_MS <= net.signings[m].at
  }

  /** A vote by `i` at `slot` cast when `i` already had a block at that height. */
  ghost predicate VotedWhenDecided(cfg: Config, net: Net, i: Signer, slot: Slot)
  {
    exists r :: By(cfg, net, r, i, slot) && net.signings[r].decided
  }

  /**
   Two certificates for one (epoch, commit round) share at least `2q - n - f >= 1` honest signers,
   and each of those got there through a release after the full window, or by voting from a snapshot
   taken before it imported a block at that height.
   */
  lemma ConflictingCertificates(cfg: Config, steps: seq<Step>, h1: Hash, h2: Hash)
    requires ValidConfig(cfg) && ValidRun(cfg, steps)
    requires h1 in After(cfg, steps).certs && h2 in After(cfg, steps).certs && h1 != h2
    requires cfg.slotOf(h1) == cfg.slotOf(h2)
    ensures var net := After(cfg, steps);
            && |HonestOnBoth(cfg, net, h1, h2)|
               >= 2 * RequiredQuorum(|cfg.validators|) - |cfg.validators| - |cfg.faulty| >= 1
            && forall i :: i in HonestOnBoth(cfg, net, h1, h2) ==>
                 TimedRelease(cfg, net, i, cfg.slotOf(h1)) || VotedWhenDecided(cfg, net, i, cfg.slotOf(h1))
  {
    var net, slot := After(cfg, steps), cfg.slotOf(h1);
    RunKeepsInv(cfg, steps);
    HonestOverlap(cfg.validators, cfg.faulty, SignersOf(cfg, net, h1), SignersOf(cfg, net, h2));
    forall i | i in HonestOnBoth(cfg, net, h1, h2)
      ensures TimedRelease(cfg, net, i, slot) || VotedWhenDecided(cfg, net, i, slot)
    {
      DoubleSignerEscaped(cfg, net, i, h1, h2);
    }
  }

  lemma DoubleSignerEscaped(cfg: Config, net: Net, i: Signer, h1: Hash, h2: Hash)
    requires i in net.nodes && HonestInv(cfg, net, i)
    requires SignedBy(net, i, h1) && SignedBy(net, i, h2) && h1 != h2 && cfg.slotOf(h1) == cfg.slotOf(h2)
    ensures TimedRelease(cfg, net, i, cfg.slotOf(h1)) || VotedWhenDecided(cfg, net, i, cfg.slotOf(h1))
  {
    var slot := cfg.slotOf(h1);
    var k, m := TwoSignings(cfg, net, i, h1, h2);
    var r :| k < r <= m && Escape(cfg, net, r, i, slot);
    if net.signings[r].how == Released {
      var j :| 0 <= j < r && By(cfg, net, j, i, slot) && net.signings[j].hash != net.signings[r].hash
               && net.signings[j].at + COMMIT_VOTE_PIN_RELEASE_MS <= net.signings[r].at;
      ReleaseIsTimed(cfg, net, i, slot, j, r);
    } else {
      LateIsLate(cfg, net, i, slot, r);
    }
  }

  /** The two signings in the order of the log. */
  lemma TwoSignings(cfg: Config, net: Net, i: Signer, h1: Hash, h2: Hash) returns (k: nat, m: nat)
    requires SignedBy(net, i, h1) && SignedBy(net, i, h2) && h1 != h2 && cfg.slotOf(h1) == cfg.slotOf(h2)
    ensures k < m && By(cfg, net, k, i, cfg.slotOf(h1)) && By(cfg, net, m, i, cfg.slotOf(h1))
    ensures net.signings[k].hash != net.signings[m].hash
  {
    k := SigningOf(cfg, net, i, h1);
    m := SigningOf(cfg, net, i, h2);
    if m < k {
      k, m := m, k;
    }
  }

  lemma SigningOf(cfg: Config, net: Net, i: Signer, h: Hash) returns (k: nat)
    requires SignedBy(net, i, h)
    ensures By(cfg, net, k, i, cfg.slotOf(h)) && net.signings[k].hash == h
  {
    var s :| s in net.signings && s.signer == i && s.hash == h;
    k :| 0 <= k < |net.signings| && net.signings[k] == s;
  }

  lemma ReleaseIsTimed(cfg: Config, net: Net, i: Signer, slot: Slot, k: nat, m: nat)
    requires k < m && By(cfg, net, k, i, slot) && By(cfg, net, m, i, slot)
    requires net.signings[m].how == Released && net.signings[k].hash != net.signings[m].hash
    requires net.signings[k].at + COMMIT_VOTE_PIN_RELEASE_MS <= net.signings[m].at
    ensures TimedRelease(cfg, net, i, slot)
  {
  }

  lemma LateIsLate(cfg: Config, net: Net, i: Signer, slot: Slot, r: nat)
    requires By(cfg, net, r, i, slot) && net.signings[r].decided
    ensures VotedWhenDecided(cfg, net, i, slot)
  {
  }

  /** No honest release and no late vote at a slot: its certificate is unique. */
  lemma CertificateUnique(cfg: Config, steps: seq<Step>, h1: Hash, h2: Hash)
    requires ValidConfig(cfg) && ValidRun(cfg, steps)
    requires h1 in After(cfg, steps).certs && h2 in After(cfg, steps).certs
    requires cfg.slotOf(h1) == cfg.slotOf(h2)
    requires forall i :: i in cfg.validators - cfg.faulty ==>
               && !TimedRelease(cfg, After(cfg, steps), i, cfg.slotOf(h1))
               && !VotedWhenDecided(cfg, After(cfg, steps), i, cfg.slotOf(h1))
    ensures h1 == h2
  {
    if h1 != h2 {
      ConflictingCertificates(cfg, steps, h1, h2);
    }
  }

  /** Every vote is cast from the current tip: the premise under which a cycle is one atomic step. */
  ghost predicate AtomicCycles(cfg: Config, steps: seq<Step>)
    requires ValidRun(cfg, steps)
  {
    steps == [] ||
    (AtomicCycles(cfg, steps[..|steps| - 1]) &&
     var before, last := After(cfg, steps[..|steps| - 1]), steps[|steps| - 1];
     last.Vote? ==> last.snapshot == |before.nodes[last.i].chain|)
  }

  lemma {:induction false} AtomicCyclesNeverVoteLate(cfg: Config, steps: seq<Step>)
    requires ValidRun(cfg, steps) && AtomicCycles(cfg, steps)
    ensures forall s :: s in After(cfg, steps).signings ==> !s.decided
  {
    if steps != [] {
      AtomicCyclesNeverVoteLate(cfg, steps[..|steps| - 1]);
    }
  }

  /** With atomic cycles, only timed releases can produce a second certificate for a slot. */
  lemma AtomicConflictNeedsReleases(cfg: Config, steps: seq<Step>, h1: Hash, h2: Hash)
    requires ValidConfig(cfg) && ValidRun(cfg, steps) && AtomicCycles(cfg, steps)
    requires h1 in After(cfg, steps).certs && h2 in After(cfg, steps).certs && h1 != h2
    requires cfg.slotOf(h1) == cfg.slotOf(h2)
    ensures var net := After(cfg, steps);
            && |HonestOnBoth(cfg, net, h1, h2)|
               >= 2 * RequiredQuorum(|cfg.validators|) - |cfg.validators| - |cfg.faulty| >= 1
            && forall i :: i in HonestOnBoth(cfg, net, h1, h2) ==> TimedRelease(cfg, net, i, cfg.slotOf(h1))
  {
    ConflictingCertificates(cfg, steps, h1, h2);
    AtomicCyclesNeverVoteLate(cfg, steps);
    var net := After(cfg, steps);
    forall i ensures !VotedWhenDecided(cfg, net, i, cfg.slotOf(h1)) {
      forall r | By(cfg, net, r, i, cfg.slotOf(h1)) ensures !net.signings[r].decided {
        assert net.signings[r] in net.signings;
      }
    }
  }

  /**
   Two chains that carry the same epoch at a height carry the same certificate there, unless an
   honest validator escaped its pin at that slot.
   */
  lemma ChainsAgree(cfg: Config, steps: seq<Step>, i: Signer, j: Signer, height: nat)
    requires ValidConfig(cfg) && ValidRun(cfg, steps)
    requires i in After(cfg, steps).nodes && j in After(cfg, steps).nodes
    requires height < |After(cfg, steps).nodes[i].chain| && height < |After(cfg, steps).nodes[j].chain|
    requires var net := After(cfg, steps);
             && cfg.slotOf(net.nodes[i].chain[height]).epoch == cfg.slotOf(net.nodes[j].chain[height]).epoch
             && forall v :: v in cfg.validators - cfg.faulty ==>
                  && !TimedRelease(cfg, net, v, cfg.slotOf(net.nodes[i].chain[height]))
                  && !VotedWhenDecided(cfg, net, v, cfg.slotOf(net.nodes[i].chain[height]))
    ensures After(cfg, steps).nodes[i].chain[height] == After(cfg, steps).nodes[j].chain[height]
  {
    RunKeepsInv(cfg, steps);
    var net := After(cfg, steps);
    CertificateUnique(cfg, steps, net.nodes[i].chain[height], net.nodes[j].chain[height]);
  }

  /**
   From a current snapshot, a cast vote contradicts an earlier one of the same validator at the slot
   exactly when it is a release, as long as the slot has seen no escape before.
   */
  lemma CurrentSnapshotContradictsOnlyByRelease(cfg: Config, steps: seq<Step>, i: Signer, hash: Hash, now: nat)
    requires ValidConfig(cfg) && ValidRun(cfg, steps)
    requires i in After(cfg, steps).nodes
    requires Enabled(cfg, After(cfg, steps), Vote(i, |After(cfg, steps).nodes[i].chain|, hash, now))
    requires forall r :: !Escape(cfg, After(cfg, steps), r, i, cfg.slotOf(hash))
    requires Decide(After(cfg, steps).nodes[i].pins, cfg.slotOf(hash), hash, now).Cast?
    ensures var net := After(cfg, steps);
            (exists k :: By(cfg, net, k, i, cfg.slotOf(hash)) && net.signings[k].hash != hash)
            <==> Decide(net.nodes[i].pins, cfg.slotOf(hash), hash, now) == Cast(Released)
  {
    RunKeepsInv(cfg, steps);
    var net, slot := After(cfg, steps), cfg.slotOf(hash);
    SnapshotRound(cfg, net, i, |net.nodes[i].chain|);
    assert Live(net, i, slot);
    if slot in net.nodes[i].pins {
      var k :| By(cfg, net, k, i, slot) && net.signings[k].hash == net.nodes[i].pins[slot].hash;
    }
  }

  /** From a stale snapshot there is no protection: once the height is decided, pruning drops the pin. */
  lemma StaleSnapshotIsUnprotected(cfg: Config, steps: seq<Step>, i: Signer, snapshot: nat, hash: Hash, now: nat)
    requires ValidConfig(cfg) && ValidRun(cfg, steps + [Prune(i)])
    requires Enabled(cfg, After(cfg, steps + [Prune(i)]), Vote(i, snapshot, hash, now))
    ensures var net := After(cfg, steps + [Prune(i)]);
            snapshot < |net.nodes[i].chain| ==>
              Decide(net.nodes[i].pins, cfg.slotOf(hash), hash, now) == Cast(First)
  {
    RunKeepsInv(cfg, steps + [Prune(i)]);
    var net := After(cfg, steps + [Prune(i)]);
    SnapshotRound(cfg, net, i, snapshot);
    assert (steps + [Prune(i)])[..|steps|] == steps;
  }

  /** The validator has signed another certificate for the slot. */
  ghost predicate Contradicts(cfg: Config, net: Net, i: Signer, hash: Hash)
  {
    exists k :: By(cfg, net, k, i, cfg.slotOf(hash)) && net.signings[k].hash != hash
  }

  /**
   After pruning, a vote bound to any snapshot contradicts an earlier signing only as a timed release exactly
   when the snapshot is still the tip or there is nothing to contradict.
   */
  lemma PinProtectsIff(cfg: Config, steps: seq<Step>, i: Signer, snapshot: nat, hash: Hash, now: nat)
    requires ValidConfig(cfg) && ValidRun(cfg, steps + [Prune(i)])
    requires Enabled(cfg, After(cfg, steps + [Prune(i)]), Vote(i, snapshot, hash, now))
    requires forall r :: !Escape(cfg, After(cfg, steps + [Prune(i)]), r, i, cfg.slotOf(hash))
    ensures var net := After(cfg, steps + [Prune(i)]);
            var decision := Decide(net.nodes[i].pins, cfg.slotOf(hash), hash, now);
            (decision.Cast? && Contradicts(cfg, net, i, hash) ==> decision == Cast(Released)) <==>
            (snapshot == |net.nodes[i].chain| || !Contradicts(cfg, net, i, hash))
  {
    var net := After(cfg, steps + [Prune(i)]);
    if snapshot < |net.nodes[i].chain| {
      StaleSnapshotIsUnprotected(cfg, steps, i, snapshot, hash, now);
    } else if Decide(net.nodes[i].pins, cfg.slotOf(hash), hash, now).Cast? {
      CurrentSnapshotContradictsOnlyByRelease(cfg, steps + [Prune(i)], i, hash, now);
    }
  }

  // ----- a slot can be decided

  /** An honest validator at the tip below the slot of `hash`, whose pin lets it vote. */
  ghost predicate Ready(cfg: Config, net: Net, i: Signer, hash: Hash)
  {
    && i in net.nodes && i in cfg.validators - cfg.faulty
    && cfg.slotOf(hash) == Slot(net.nodes[i].epoch, |net.nodes[i].chain| + 1)
    && Decide(net.nodes[i].pins, cfg.slotOf(hash), hash, net.nodes[i].clock).Cast?
  }

  /** One round above the tip and at most one epoch, or in the epoch of a node that has no block yet. */
  ghost predicate Fits(cfg: Config, node: Node, hash: Hash)
  {
    var slot, n := cfg.slotOf(hash), |node.chain|;
    && slot.round == n + 1
    && if n == 0 then slot.epoch == node.epoch
       else slot.epoch == cfg.slotOf(node.chain[n - 1]).epoch || slot.epoch == cfg.slotOf(node.chain[n - 1]).epoch + 1
  }

  /** Chains and certificates are as before, and signatures are only added. */
  ghost predicate OnlyVoted(net: Net, net': Net)
  {
    && net.signings <= net'.signings && net'.certs == net.certs && net'.nodes.Keys == net.nodes.Keys
    && forall j :: j in net.nodes ==>
        net'.nodes[j].chain == net.nodes[j].chain && net'.nodes[j].epoch == net.nodes[j].epoch
  }

  lemma ReadyVotes(cfg: Config, net: Net, i: Signer, hash: Hash)
    requires RoundsAreHeights(cfg, net) && Ready(cfg, net, i, hash)
    ensures var step := Vote(i, |net.nodes[i].chain|, hash, net.nodes[i].clock);
            && Enabled(cfg, net, step)
            && OnlyVoted(net, Next(cfg, net, step)) && SignedBy(Next(cfg, net, step), i, hash)
            && forall j :: j in net.nodes && j != i ==> Next(cfg, net, step).nodes[j] == net.nodes[j]
  {
    var chain := net.nodes[i].chain;
    SnapshotRound(cfg, net, i, |chain|);
    var step := Vote(i, |chain|, hash, net.nodes[i].clock);
    assert Enabled(cfg, net, step);
    var net' := Next(cfg, net, step);
    assert net'.signings[|net.signings|] in net'.signings;
  }

  /** All of the voters have signed, and the nodes of all others are as before. */
  ghost predicate AllSigned(net: Net, net': Net, voters: seq<Signer>, hash: Hash)
  {
    && OnlyVoted(net, net')
    && (forall i :: i in voters ==> SignedBy(net', i, hash))
    && forall j :: j in net.nodes && j !in voters ==> net'.nodes[j] == net.nodes[j]
  }

  lemma OneMoreSigned(net: Net, mid: Net, net': Net, voters: seq<Signer>, i: Signer, hash: Hash)
    requires AllSigned(net, mid, voters, hash) && OnlyVoted(mid, net') && SignedBy(net', i, hash)
    requires forall j :: j in mid.nodes && j != i ==> net'.nodes[j] == mid.nodes[j]
    ensures AllSigned(net, net', voters + [i], hash)
  {
    forall j | j in voters ensures SignedBy(net', j, hash) {
      var s :| s in mid.signings && s.signer == j && s.hash == hash;
      assert s in net'.signings;
    }
  }

  lemma {:induction false} AllReadyVote(cfg: Config, steps: seq<Step>, voters: seq<Signer>, hash: Hash)
    returns (longer: seq<Step>)
    requires ValidConfig(cfg) && ValidRun(cfg, steps) && Distinct(voters)
    requires forall i :: i in voters ==> Ready(cfg, After(cfg, steps), i, hash)
    ensures ValidRun(cfg, longer) && AllSigned(After(cfg, steps), After(cfg, longer), voters, hash)
  {
    longer := steps;
    if voters != [] {
      var before, last := voters[..|voters| - 1], voters[|voters| - 1];
      assert voters == before + [last] && last in voters;
      assert Distinct(before) && last !in before;
      var voted := AllReadyVote(cfg, steps, before, hash);
      longer := LastVotes(cfg, After(cfg, steps), voted, before, last, hash);
    }
  }

  lemma LastVotes(cfg: Config, net: Net, voted: seq<Step>, before: seq<Signer>, i: Signer, hash: Hash)
    returns (longer: seq<Step>)
    requires ValidConfig(cfg) && ValidRun(cfg, voted) && AllSigned(net, After(cfg, voted), before, hash)
    requires i !in before && Ready(cfg, net, i, hash)
    ensures ValidRun(cfg, longer) && AllSigned(net, After(cfg, longer), before + [i], hash)
  {
    var mid := After(cfg, voted);
    RunKeepsInv(cfg, voted);
    assert mid.nodes[i] == net.nodes[i];
    ReadyVotes(cfg, mid, i, hash);
    var step := Vote(i, |mid.nodes[i].chain|, hash, mid.nodes[i].clock);
    Extend(cfg, voted, step);
    longer := voted + [step];
    OneMoreSigned(net, mid, After(cfg, longer), before, i, hash);
  }

  /**
   From every reachable state: if a quorum of honest validators may vote for a certificate, their votes
   certify it, and every chain it fits on, one round and at most one epoch further, can import it.
   */
  lemma SlotCanBeDecided(cfg: Config, steps: seq<Step>, voters: seq<Signer>, hash: Hash) returns (longer: seq<Step>)
    requires ValidConfig(cfg) && ValidRun(cfg, steps) && Distinct(voters)
    requires 3 * |voters| > 2 * |cfg.validators|
    requires forall i :: i in voters ==> Ready(cfg, After(cfg, steps), i, hash)
    ensures ValidRun(cfg, longer) && hash in After(cfg, longer).certs
    ensures forall i | i in After(cfg, steps).nodes && Fits(cfg, After(cfg, steps).nodes[i], hash) ::
              Enabled(cfg, After(cfg, longer), Import(i, hash))
  {
    var voted := AllReadyVote(cfg, steps, voters, hash);
    assert forall i :: i in voters ==> Ready(cfg, After(cfg, steps), i, hash) && i in cfg.validators;
    longer := QuorumCertifies(cfg, voted, voters, hash);
    RunKeepsInv(cfg, longer);
    FittingImports(cfg, After(cfg, steps), After(cfg, voted), After(cfg, longer), hash);
  }

  lemma QuorumCertifies(cfg: Config, voted: seq<Step>, voters: seq<Signer>, hash: Hash) returns (longer: seq<Step>)
    requires ValidRun(cfg, voted) && Distinct(voters) && 3 * |voters| > 2 * |cfg.validators|
    requires forall i :: i in voters ==> i in cfg.validators && SignedBy(After(cfg, voted), i, hash)
    ensures ValidRun(cfg, longer) && OnlyCertified(After(cfg, voted), After(cfg, longer), hash)
  {
    DistinctCardinality(voters);
    var certify := Certify(hash, Elements(voters));
    assert Enabled(cfg, After(cfg, voted), certify);
    Extend(cfg, voted, certify);
    longer := voted + [certify];
  }

  ghost predicate OnlyCertified(net: Net, net': Net, hash: Hash)
  {
    net' == net.(certs := net.certs + {hash})
  }

  lemma FittingImports(cfg: Config, net: Net, mid: Net, net': Net, hash: Hash)
    requires OnlyVoted(net, mid) && OnlyCertified(mid, net', hash) && RoundsAreHeights(cfg, net')
    ensures forall i | i in net.nodes && Fits(cfg, net.nodes[i], hash) :: Enabled(cfg, net', Import(i, hash))
  {
    forall i | i in net.nodes && Fits(cfg, net.nodes[i], hash) ensures Enabled(cfg, net', Import(i, hash)) {
      var chain := net'.nodes[i].chain;
      SnapshotRound(cfg, net', i, |chain|);
      assert chain[..|chain|] == chain == net.nodes[i].chain;
    }
  }

  // ----- the premise of the atomic theorem is needed

  function TwoForOneSlot(): Config
  {
    Config({0, 1, 2, 3}, {3}, [0, 1, 2, 3], (h: Hash) => Slot(1, 1))
  }

  lemma TwoForOneSlotIsValid()
    ensures ValidConfig(TwoForOneSlot())
  {
    var cfg := TwoForOneSlot();
    assert Elements(cfg.active) == cfg.validators;
    assert Distinct(cfg.active);
    assert |cfg.validators| == 4;
  }

  lemma Extend(cfg: Config, steps: seq<Step>, step: Step)
    requires ValidRun(cfg, steps) && Enabled(cfg, After(cfg, steps), step)
    ensures ValidRun(cfg, steps + [step]) && After(cfg, steps + [step]) == Next(cfg, After(cfg, steps), step)
  {
    var longer := steps + [step];
    assert longer[..|longer| - 1] == steps && longer[|longer| - 1] == step;
  }

  /** Validators `0..count` have voted for certificate 7 and nothing else has happened. */
  ghost predicate Voted(cfg: Config, net: Net, count: nat)
  {
    && net.nodes.Keys == cfg.validators && net.certs == {}
    && (forall j :: j in net.nodes ==> net.nodes[j].chain == [] && net.nodes[j].epoch == 1 && net.nodes[j].clock == 0)
    && (forall j :: j in net.nodes && j >= count ==> net.nodes[j].pins == map[])
    && (forall j :: 0 <= j < count ==> SignedBy(net, j, 7))
    && (forall s :: s in net.signings ==> s.how == First && s.at == 0)
  }

  lemma OneMoreVote(net: Net, count: nat)
    requires count < 3 && Voted(TwoForOneSlot(), net, count)
    ensures Enabled(TwoForOneSlot(), net, Vote(count, 0, 7, 0))
    ensures Voted(TwoForOneSlot(), Next(TwoForOneSlot(), net, Vote(count, 0, 7, 0)), count + 1)
  {
    var cfg := TwoForOneSlot();
    FirstVote(cfg, net, count);
    var net' := Next(cfg, net, Vote(count, 0, 7, 0));
    assert net'.signings[|net.signings|] in net'.signings;
    forall j | 0 <= j < count + 1 ensures SignedBy(net', j, 7) {
      if j < count {
        SignedByGrows(cfg, net, net', 7);
      }
    }
  }

  lemma FirstVote(cfg: Config, net: Net, i: Signer)
    requires Enabled(cfg, net, Vote(i, 0, 7, 0)) && net.nodes[i].pins == map[] && net.nodes[i].chain == []
    ensures var net' := Next(cfg, net, Vote(i, 0, 7, 0));
            && net'.signings == net.signings + [Signing(i, 7, 0, First, false)] && net'.certs == net.certs
            && net'.nodes.Keys == net.nodes.Keys
            && (forall j :: j in net.nodes && j != i ==> net'.nodes[j] == net.nodes[j])
            && net'.nodes[i].chain == [] && net'.nodes[i].epoch == net.nodes[i].epoch && net'.nodes[i].clock == 0
  {
  }

  lemma ThreeVotes() returns (steps: seq<Step>)
    ensures ValidRun(TwoForOneSlot(), steps) && Voted(TwoForOneSlot(), After(TwoForOneSlot(), steps), 3)
  {
    steps := [];
    for count := 0 to 3
      invariant ValidRun(TwoForOneSlot(), steps) && Voted(TwoForOneSlot(), After(TwoForOneSlot(), steps), count)
    {
      OneMoreVote(After(TwoForOneSlot(), steps), count);
      Extend(TwoForOneSlot(), steps, Vote(count, 0, 7, 0));
      steps := steps + [Vote(count, 0, 7, 0)];
    }
  }

  /** Certificate 7 is assembled and imported by validator 0. */
  lemma CertifyAndImport(voted: seq<Step>) returns (steps: seq<Step>)
    requires ValidRun(TwoForOneSlot(), voted) && Voted(TwoForOneSlot(), After(TwoForOneSlot(), voted), 3)
    ensures ValidRun(TwoForOneSlot(), steps)
    ensures var net, net0 := After(TwoForOneSlot(), steps), After(TwoForOneSlot(), voted);
            && net.signings == net0.signings && 0 in net.nodes && 0 in net0.nodes
            && net.nodes[0] == net0.nodes[0].(chain := [7])
  {
    var cfg := TwoForOneSlot();
    var net := After(cfg, voted);
    var certify, importing := Certify(7, {0, 1, 2}), Import(0, 7);
    assert Enabled(cfg, net, certify);
    Extend(cfg, voted, certify);
    var certified := voted + [certify];
    assert After(cfg, certified) == net.(certs := net.certs + {7});
    assert Enabled(cfg, After(cfg, certified), importing);
    Extend(cfg, certified, importing);
    steps := certified + [importing];
    assert [] + [7] == [7];
  }

  /** Validator 0 then prunes its pins: slot (1, 1) is at its tip. */
  lemma ImportAndPrune(voted: seq<Step>) returns (steps: seq<Step>)
    requires ValidRun(TwoForOneSlot(), voted) && Voted(TwoForOneSlot(), After(TwoForOneSlot(), voted), 3)
    ensures ValidRun(TwoForOneSlot(), steps)
    ensures var net := After(TwoForOneSlot(), steps);
            && net.signings == After(TwoForOneSlot(), voted).signings
            && 0 in net.nodes && net.nodes[0].chain == [7] && net.nodes[0].epoch == 1 && net.nodes[0].clock == 0
            && Slot(1, 1) !in net.nodes[0].pins
  {
    var cfg := TwoForOneSlot();
    var imported := CertifyAndImport(voted);
    var net, prune := After(cfg, imported), Prune(0);
    assert Enabled(cfg, net, prune);
    Extend(cfg, imported, prune);
    steps := imported + [prune];
  }

  /**
   A run in which no pin is ever released and no time passes, yet honest validator 0 signs two
   certificates for slot (1, 1): it votes, imports the certified block, prunes, and votes again from
   the snapshot it took before the import.
   */
  lemma LateVoteSignsTwice() returns (steps: seq<Step>)
    ensures ValidConfig(TwoForOneSlot()) && ValidRun(TwoForOneSlot(), steps)
    ensures var net := After(TwoForOneSlot(), steps);
            && SignedBy(net, 0, 7) && SignedBy(net, 0, 8)
            && (forall s :: s in net.signings ==> s.how == First && s.at == 0)
  {
    var cfg := TwoForOneSlot();
    TwoForOneSlotIsValid();
    var voted := ThreeVotes();
    var pruned := ImportAndPrune(voted);
    var net, late := After(cfg, pruned), Vote(0, 0, 8, 0);
    LateVote(net);
    Extend(cfg, pruned, late);
    steps := pruned + [late];
    var net' := After(cfg, steps);
    assert net' == Next(cfg, net, late);
    assert SignedBy(After(cfg, voted), 0, 7);
    SignedByGrows(cfg, After(cfg, voted), net', 7);
  }

  lemma LateVote(net: Net)
    requires 0 in net.nodes && net.nodes[0].chain == [7] && net.nodes[0].epoch == 1 && net.nodes[0].clock == 0
    requires Slot(1, 1) !in net.nodes[0].pins
    ensures Enabled(TwoForOneSlot(), net, Vote(0, 0, 8, 0))
    ensures var net' := Next(TwoForOneSlot(), net, Vote(0, 0, 8, 0));
            && net'.signings == net.signings + [Signing(0, 8, 0, First, true)]
            && SignedBy(net', 0, 8)
  {
    var cfg := TwoForOneSlot();
    assert [7][..0] == [];
    var net' := Next(cfg, net, Vote(0, 0, 8, 0));
    assert net'.signings[|net.signings|] in net'.signings;
  }
}
