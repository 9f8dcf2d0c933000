/**
`persist_pending` is a transaction (src/security/ip_blocking.rs): what a successful preparation may
change, and when it makes progress.
*/
module IpTransaction {
  import opened Wrappers
  import opened ViolationWindows
  import opened Network
  import opened BlockFile
  import opened IpBlocking

  // ---- what a draft contains ----

  ghost predicate ProposalsOk(batch: seq<Proposal>) {
    forall i | 0 <= i < |batch| :: Normalized(batch[i].0) && batch[i].1.count > 0
  }

  predicate Proposed(batch: seq<Proposal>, i: nat, ip: IpAddr, now: Instant) {
    i < |batch| && batch[i].0 == ip && batch[i].1.deadline > now
  }

  /** A block of the draft is an old live one, unmodified, or a new one for an activated proposal. */
  ghost predicate FromBatch(batch: seq<Proposal>, ip: IpAddr, now: Instant, wall: u64, block: ActiveBlock)
    requires wall + BLOCK_SECONDS < U64_LIMIT
  {
    exists i: nat :: Proposed(batch, i, ip, now) && block == NewBlock(batch[i], now, wall)
  }

  ghost predicate DraftOk(config: Config, base: BlockSnapshot, batch: seq<Proposal>, now: Instant, wall: u64, d: Draft)
  {
    && |d.blocks| <= config.maxBlocked
    && (d.activated != [] ==> wall + BLOCK_SECONDS < U64_LIMIT)
    && (forall ip | ip in base :: ip in d.blocks && d.blocks[ip] == base[ip])
    && (forall ip | ip in d.blocks && ip !in base ::
          ip in d.activated && FromBatch(batch, ip, now, wall, d.blocks[ip]))
    && (forall ip | ip in d.activated :: ip in d.consumed && ip in d.blocks && ip !in base)
    && (forall ip | ip in d.consumed ::
          && (exists i: nat :: Proposed(batch, i, ip, now))
          && (ip in d.blocks || Allowed(config, ip)))
  }

  lemma ActivateKeeps(config: Config, base: BlockSnapshot, batch: seq<Proposal>, now: Instant, wall: u64, d: Draft,
      i: nat)
    requires i < |batch| && batch[i].1.deadline > now && DraftOk(config, base, batch, now, wall, d)
    requires batch[i].0 !in d.blocks && |d.blocks| < config.maxBlocked && wall + BLOCK_SECONDS < U64_LIMIT
    ensures var ip := batch[i].0;
      DraftOk(config, base, batch, now, wall,
        Draft(d.blocks[ip := NewBlock(batch[i], now, wall)], d.consumed + [ip], d.activated + [ip], d.overflow))
  {
    var ip := batch[i].0;
    assert Proposed(batch, i, ip, now);
    assert FromBatch(batch, ip, now, wall, NewBlock(batch[i], now, wall));
    forall other | other in d.consumed
      ensures (exists k: nat :: Proposed(batch, k, other, now)) && (other in d.blocks || Allowed(config, other))
    {
    }
  }

  lemma {:induction false} ProposeKeeps(config: Config, base: BlockSnapshot, batch: seq<Proposal>, now: Instant,
    wall: u64, d: Draft, done: nat)
    requires done <= |batch| && DraftOk(config, base, batch, now, wall, d)
    ensures var r := Propose(config, d, batch[done..], now, wall);
      r.Some? ==> DraftOk(config, base, batch, now, wall, r.value)
    decreases |batch| - done
  {
    if done < |batch| {
      var (ip, entry) := batch[done];
      assert batch[done..][0] == batch[done] && batch[done..][1..] == batch[done + 1..];
      if entry.deadline <= now {
        ProposeKeeps(config, base, batch, now, wall, d, done + 1);
      } else {
        assert Proposed(batch, done, ip, now);
        if ip in d.blocks || Allowed(config, ip) {
          ProposeKeeps(config, base, batch, now, wall, d.(consumed := d.consumed + [ip]), done + 1);
        } else if |d.blocks| < config.maxBlocked && wall + BLOCK_SECONDS < U64_LIMIT {
          ActivateKeeps(config, base, batch, now, wall, d, done);
          ProposeKeeps(config, base, batch, now, wall,
            Draft(d.blocks[ip := NewBlock(batch[done], now, wall)], d.consumed + [ip], d.activated + [ip], d.overflow),
            done + 1);
        }
      }
    }
  }

  /** What a prepared transaction may do to the durable map and to the pending set. */
  ghost predicate Transacts(config: Config, before: BlockSnapshot, batch: seq<Proposal>, now: Instant, wall: u64,
    prepared: Prepared)
  {
    && (prepared.write ==>
          && BlocksOk(prepared.draft.blocks, config.maxBlocked)
          && DraftOk(config, Retained(before, now), batch, now, wall, prepared.draft))
    && (!prepared.write ==>
          && prepared.draft.activated == []
          && forall ip | ip in prepared.draft.consumed ::
               && (exists i: nat :: Proposed(batch, i, ip, now))
               && ((ip in before && before[ip].deadline > now) || Allowed(config, ip)))
  }

  lemma RetainedOk(blocks: BlockSnapshot, now: Instant, maximum: nat)
    requires BlocksOk(blocks, maximum)
    ensures BlocksOk(Retained(blocks, now), maximum)
    ensures AnyExpired(blocks, now) ==> |Retained(blocks, now)| < |blocks|
    ensures !AnyExpired(blocks, now) ==> Retained(blocks, now) == blocks
  {
    var kept := Retained(blocks, now);
    SubsetSize(kept.Keys, blocks.Keys);
    if AnyExpired(blocks, now) {
      var ip :| ip in blocks && blocks[ip].deadline <= now;
      SubsetSize(kept.Keys, blocks.Keys - {ip});
    }
  }

  /**
  A transaction keeps every live durable block unmodified, adds only blocks for batch entries,
  stays within the table, and consumes only entries whose client is durably blocked or allowed.
  */
  lemma PrepareTransacts(config: Config, before: BlockSnapshot, batch: seq<Proposal>, now: Instant, wall: Option<u64>,
    force: bool)
    requires BlocksOk(before, config.maxBlocked) && ProposalsOk(batch)
    requires Prepare(config, before, batch, now, wall, force).Ok?
    ensures Transacts(config, before, batch, now, wall.GetOr(0), Prepare(config, before, batch, now, wall, force).value)
  {
    var prepared := Prepare(config, before, batch, now, wall, force).value;
    RetainedOk(before, now, config.maxBlocked);
    var base := Retained(before, now);
    if batch != [] || AnyExpired(before, now) || force {
      assert batch[0..] == batch;
      ProposeKeeps(config, base, batch, now, wall.value, Draft(base, [], [], false), 0);
      if prepared.write {
        DraftBlocksOk(config, base, batch, now, wall.value, prepared.draft);
      } else {
        NothingActivated(config, base, batch, now, wall.value, prepared.draft);
      }
    }
  }

  lemma DraftBlocksOk(config: Config, base: BlockSnapshot, batch: seq<Proposal>, now: Instant, wall: u64, d: Draft)
    requires BlocksOk(base, config.maxBlocked) && ProposalsOk(batch) && DraftOk(config, base, batch, now, wall, d)
    ensures BlocksOk(d.blocks, config.maxBlocked)
  {
  }

  lemma NothingActivated(config: Config, base: BlockSnapshot, batch: seq<Proposal>, now: Instant, wall: u64, d: Draft)
    requires DraftOk(config, base, batch, now, wall, d) && d.activated == []
    ensures d.blocks == base
  {
    assert d.blocks.Keys == base.Keys;
  }

  /** A block of a draft is an old live one, or a new one for a batch entry. */
  lemma DraftBlock(config: Config, before: BlockSnapshot, batch: seq<Proposal>, now: Instant, wall: u64, d: Draft,
      ip: IpAddr)
    requires DraftOk(config, Retained(before, now), batch, now, wall, d) && ip in d.blocks
    ensures d.blocks[ip].deadline > now
    ensures (ip in before && d.blocks[ip] == before[ip])
      || (ip in d.consumed && Added(batch, ip, now, Some(wall), d.blocks[ip]))
  {
  }

  /** A new durable block: a day from now for a batch entry. */
  ghost predicate Added(batch: seq<Proposal>, ip: IpAddr, now: Instant, wall: Option<u64>, block: ActiveBlock) {
    wall.Some? && wall.value + BLOCK_SECONDS < U64_LIMIT && FromBatch(batch, ip, now, wall.value, block)
  }

  /** The row of a new block names the client, the day, and the rule and count that earned it. */
  lemma AddedRow(batch: seq<Proposal>, ip: IpAddr, now: Instant, wall: Option<u64>, block: ActiveBlock) returns (i: nat)
    requires Added(batch, ip, now, wall, block)
    ensures i < |batch| && batch[i].0 == ip && batch[i].1.deadline > now
    ensures block.deadline == now + 86400 * SECOND
    ensures block.record.clientIp == ip
    ensures block.record.created == wall.value && block.record.expires == wall.value + 86400
    ensures block.record.rule == batch[i].1.rule && block.record.observedCount == batch[i].1.count
  {
    i :| Proposed(batch, i, ip, now) && block == NewBlock(batch[i], now, wall.value);
  }

  lemma CommittedParts(s: Shared, prepared: Prepared)
    ensures Committed(s, prepared).durable == if prepared.write then prepared.draft.blocks else s.durable
    ensures Committed(s, prepared).pending == s.pending - ToSet(prepared.draft.consumed)
  {
    NothingToConsume(s.pending);
  }

  /**
  A committed transaction, seen from the shared state: live durable blocks stay as they are, a new
  one is a day long and for a batch entry, the table stays bounded, and exactly the consumed entries
  leave the pending set, each durably blocked or allowed.
  */
  lemma CommitIsTransaction(config: Config, s: Shared, batch: seq<Proposal>, now: Instant, wall: Option<u64>,
    force: bool, ip: IpAddr)
    requires BlocksOk(s.durable, config.maxBlocked) && ProposalsOk(batch)
    requires Prepare(config, s.durable, batch, now, wall, force).Ok?
    ensures var prepared := Prepare(config, s.durable, batch, now, wall, force).value;
      var t := Committed(s, prepared);
      && BlocksOk(t.durable, config.maxBlocked)
      && (DurableLive(s, ip, now) ==> ip in t.durable && t.durable[ip] == s.durable[ip])
      && (ip in t.durable && !(ip in s.durable && t.durable[ip] == s.durable[ip]) ==>
            ip in prepared.draft.consumed && Added(batch, ip, now, wall, t.durable[ip]))
      && t.pending == s.pending - ToSet(prepared.draft.consumed)
      && (ip in prepared.draft.consumed ==>
            && (exists i: nat :: Proposed(batch, i, ip, now))
            && (DurableLive(t, ip, now) || Allowed(config, ip)))
  {
    PrepareTransacts(config, s.durable, batch, now, wall, force);
    var prepared := Prepare(config, s.durable, batch, now, wall, force).value;
    CommittedParts(s, prepared);
    if prepared.write {
      assert ip in Retained(s.durable, now) <==> DurableLive(s, ip, now);
      if ip in prepared.draft.blocks {
        DraftBlock(config, s.durable, batch, now, wall.GetOr(0), prepared.draft, ip);
      }
    }
  }

  // ---- progress ----

  lemma {:induction false} ProposeExtends(config: Config, d: Draft, batch: seq<Proposal>, now: Instant, wall: u64)
    ensures var r := Propose(config, d, batch, now, wall);
      r.Some? ==> d.consumed <= r.value.consumed
    decreases |batch|
  {
    if batch != [] && batch[0].1.deadline <= now {
      ProposeExtends(config, d, batch[1..], now, wall);
    } else if batch != [] {
      var ip := batch[0].0;
      if ip in d.blocks || Allowed(config, ip) {
        ProposeExtends(config, d.(consumed := d.consumed + [ip]), batch[1..], now, wall);
      } else if |d.blocks| < config.maxBlocked && wall + BLOCK_SECONDS < U64_LIMIT {
        ProposeExtends(config,
          Draft(d.blocks[ip := NewBlock(batch[0], now, wall)], d.consumed + [ip], d.activated + [ip], d.overflow),
          batch[1..], now, wall);
      }
    }
  }

  /** The first live proposal, if any. */
  function FirstLive(batch: seq<Proposal>, now: Instant): Option<Proposal> {
    if batch == [] then None
    else if batch[0].1.deadline > now then Some(batch[0])
    else FirstLive(batch[1..], now)
  }

  lemma {:induction false} FirstLiveFinds(batch: seq<Proposal>, now: Instant)
    ensures FirstLive(batch, now).None? <==> forall i | 0 <= i < |batch| :: batch[i].1.deadline <= now
    decreases |batch|
  {
    if batch != [] && batch[0].1.deadline <= now {
      FirstLiveFinds(batch[1..], now);
    }
  }

  /** Nothing is consumed exactly when nothing is live, or the first live proposal finds the table full. */
  lemma {:induction false} ProposeConsumes(config: Config, d: Draft, batch: seq<Proposal>, now: Instant, wall: u64)
    requires d.consumed == []
    requires Propose(config, d, batch, now, wall).Some?
    ensures Propose(config, d, batch, now, wall).value.consumed == [] <==>
      || FirstLive(batch, now).None?
      || (|d.blocks| >= config.maxBlocked
          && FirstLive(batch, now).value.0 !in d.blocks && !Allowed(config, FirstLive(batch, now).value.0))
    decreases |batch|
  {
    if batch != [] && batch[0].1.deadline <= now {
      ProposeConsumes(config, d, batch[1..], now, wall);
    } else if batch != [] {
      var ip := batch[0].0;
      if ip in d.blocks || Allowed(config, ip) {
        ProposeExtends(config, d.(consumed := d.consumed + [ip]), batch[1..], now, wall);
      } else if |d.blocks| < config.maxBlocked && wall + BLOCK_SECONDS < U64_LIMIT {
        ProposeExtends(config,
          Draft(d.blocks[ip := NewBlock(batch[0], now, wall)], d.consumed + [ip], d.activated + [ip], d.overflow),
          batch[1..], now, wall);
      }
    }
  }

  /**
  A transaction that succeeds with live work consumes some of it, with one exception: a forced
  compaction of a table that is full of live blocks.
  */
  lemma SuccessConsumes(config: Config, before: BlockSnapshot, batch: seq<Proposal>, now: Instant, wall: Option<u64>,
    force: bool)
    requires BlocksOk(before, config.maxBlocked) && FirstLive(batch, now).Some?
    requires Prepare(config, before, batch, now, wall, force).Ok?
    ensures Prepare(config, before, batch, now, wall, force).value.draft.consumed == [] <==>
      && force && |before| == config.maxBlocked && !AnyExpired(before, now)
      && FirstLive(batch, now).value.0 !in before && !Allowed(config, FirstLive(batch, now).value.0)
  {
    RetainedOk(before, now, config.maxBlocked);
    ProposeConsumes(config, Draft(Retained(before, now), [], [], false), batch, now, wall.value);
  }

  /**
  Exactly when a transaction refuses before anything is written.  A full table is a reason only when
  every block in it still lasts and no compaction is forced: a table with an expired block is
  compacted instead.  Only adding a block needs room on the wall clock.
  */
  lemma RefusesExactly(config: Config, before: BlockSnapshot, batch: seq<Proposal>, now: Instant, wall: Option<u64>,
    force: bool)
    requires BlocksOk(before, config.maxBlocked)
    ensures var r := Prepare(config, before, batch, now, wall, force);
      var full := batch != [] && !force && |before| == config.maxBlocked
        && forall ip | ip in before :: before[ip].deadline > now;
      var idle := batch == [] && !force && forall ip | ip in before :: before[ip].deadline > now;
      && (r == Err(CapacityReached) <==> full)
      && (r == Err(ClockUnavailable) <==> wall.None? && !full && !idle)
      && (r == Err(TimestampOverflow) ==> wall.Some? && wall.value + BLOCK_SECONDS >= U64_LIMIT && batch != [])
      && r != Err(WriteFailed)
  {
    RetainedOk(before, now, config.maxBlocked);
    var draft := Draft(Retained(before, now), [], [], false);
    if wall.Some? {
      OverflowMeansFull(config, draft, batch, now, wall.value);
    }
  }

  lemma {:induction false} OverflowMeansFull(config: Config, d: Draft, batch: seq<Proposal>, now: Instant, wall: u64)
    requires !d.overflow && |d.blocks| <= config.maxBlocked
    ensures var r := Propose(config, d, batch, now, wall);
      && (r.None? ==> wall + BLOCK_SECONDS >= U64_LIMIT && batch != [])
      && (r.Some? ==> d.activated <= r.value.activated)
      && (r.Some? && r.value.overflow && r.value.activated == d.activated ==>
            |d.blocks| == config.maxBlocked && batch != [])
    decreases |batch|
  {
    if batch != [] {
      var (ip, entry) := batch[0];
      if entry.deadline <= now {
        OverflowMeansFull(config, d, batch[1..], now, wall);
      } else if ip in d.blocks || Allowed(config, ip) {
        OverflowMeansFull(config, d.(consumed := d.consumed + [ip]), batch[1..], now, wall);
      } else if |d.blocks| < config.maxBlocked && wall + BLOCK_SECONDS < U64_LIMIT {
        OverflowMeansFull(config,
          Draft(d.blocks[ip := NewBlock(batch[0], now, wall)], d.consumed + [ip], d.activated + [ip], d.overflow),
          batch[1..], now, wall);
      }
    }
  }

  /** A draft that stops early is full; one that does not has taken every live entry. */
  lemma {:induction false} ProposeTakesAll(config: Config, d: Draft, batch: seq<Proposal>, now: Instant, wall: u64)
    requires !d.overflow && |d.blocks| <= config.maxBlocked && Propose(config, d, batch, now, wall).Some?
    ensures var r := Propose(config, d, batch, now, wall).value;
      && |r.blocks| <= config.maxBlocked
      && (forall i | 0 <= i < |batch| && batch[i].1.deadline > now ::
            batch[i].0 in r.consumed || |r.blocks| == config.maxBlocked)
    decreases |batch|
  {
    if batch != [] {
      var (ip, entry) := batch[0];
      var next :=
        if entry.deadline <= now then d
        else if ip in d.blocks || Allowed(config, ip) then d.(consumed := d.consumed + [ip])
        else Draft(if wall + BLOCK_SECONDS < U64_LIMIT then d.blocks[ip := NewBlock(batch[0], now, wall)] else d.blocks,
          d.consumed + [ip], d.activated + [ip], d.overflow);
      var full := entry.deadline > now && ip !in d.blocks && !Allowed(config, ip) && |d.blocks| >= config.maxBlocked;
      if !full {
        ProposeTakesAll(config, next, batch[1..], now, wall);
        ProposeExtends(config, next, batch[1..], now, wall);
        var r := Propose(config, d, batch, now, wall).value;
        assert r == Propose(config, next, batch[1..], now, wall).value;
        assert entry.deadline > now ==> next.consumed[|d.consumed|] == ip && ip in r.consumed;
        assert forall i | 1 <= i < |batch| :: batch[i] == batch[1..][i - 1];
      }
    }
  }

  /** A transaction that succeeds takes all of its live entries, unless it has filled the table. */
  lemma SuccessTakesAll(config: Config, before: BlockSnapshot, batch: seq<Proposal>, now: Instant, wall: Option<u64>,
    force: bool, i: nat)
    requires BlocksOk(before, config.maxBlocked) && i < |batch| && batch[i].1.deadline > now
    requires Prepare(config, before, batch, now, wall, force).Ok?
    ensures var draft := Prepare(config, before, batch, now, wall, force).value.draft;
      batch[i].0 in draft.consumed || |draft.blocks| == config.maxBlocked
  {
    RetainedOk(before, now, config.maxBlocked);
    ProposeTakesAll(config, Draft(Retained(before, now), [], [], false), batch, now, wall.value);
  }

  /** Nothing consumed leaves the pending set as it was. */
  lemma NothingToConsume(pending: map<IpAddr, PendingBlock>)
    ensures pending - ToSet([]) == pending
  {
  }

  lemma BatchOk(config: Config, pending: map<IpAddr, PendingBlock>, now: Instant, batch: seq<Proposal>)
    requires IsBatch(config, pending, now, batch)
    requires forall ip | ip in pending :: Normalized(ip) && pending[ip].count > 0
    ensures ProposalsOk(batch)
  {
  }
}
