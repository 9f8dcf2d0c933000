/**
The durable block list (src/security/ip_blocking_persistence.rs): what is written, the file actions
of an atomic replacement, each of which may fail, and what loading accepts and restores.

The file system is explicit about crashes: the state path has a `current` content, which programs
see, a `settled` one, the last that a directory sync has made durable, and the `recent` ones, renamed
into place since.  A power loss may bring back any of them; data that has not been synced may come
back torn.
*/
module BlockFile {
  import opened Wrappers
  import opened ViolationWindows
  import opened Network

  type u64 = x: nat | x < 0x1_0000_0000_0000_0000

  const BLOCK_SECONDS: nat := 86400
  const MAX_STATE_BYTES: nat := 32 * 1024 * 1024
  const VERSION: nat := 1
  const U64_LIMIT: nat := 0x1_0000_0000_0000_0000

  datatype BlockRecord =
    BlockRecord(clientIp: IpAddr, created: u64, expires: u64, rule: ViolationRule, observedCount: nat)

  datatype ActiveBlock = ActiveBlock(record: BlockRecord, deadline: Instant)

  type BlockSnapshot = map<IpAddr, ActiveBlock>

  datatype StateFile = StateFile(version: nat, blocks: seq<BlockRecord>)

  /** The serialised length of a file. */
  type Size = StateFile -> nat

  // ---- what is written ----

  function SortKey(ip: IpAddr): nat {
    match ip
    case V4(bits) => bits
    case V6(bits) => 0x1_0000_0000 + bits
  }

  lemma {:induction false} LeastExists(ips: set<IpAddr>)
    requires ips != {}
    ensures exists ip :: IsLeast(ip, ips)
    decreases |ips|
  {
    var some :| some in ips;
    var rest := ips - {some};
    if rest == {} {
      assert ips == {some};
      assert IsLeast(some, ips);
    } else {
      LeastExists(rest);
      var least :| IsLeast(least, rest);
      assert ips == rest + {some};
      assert IsLeast(if SortKey(some) <= SortKey(least) then some else least, ips);
    }
  }

  lemma SortKeyInjective()
    ensures forall a: IpAddr, b: IpAddr :: SortKey(a) == SortKey(b) ==> a == b
  {
  }

  predicate IsLeast(ip: IpAddr, ips: set<IpAddr>) {
    ip in ips && forall other | other in ips :: SortKey(ip) <= SortKey(other)
  }

  function Least(ips: set<IpAddr>): (least: IpAddr)
    requires ips != {}
    ensures least in ips
    ensures forall other | other in ips - {least} :: SortKey(least) < SortKey(other)
  {
    LeastExists(ips);
    SortKeyInjective();
    var least :| IsLeast(least, ips);
    least
  }

  function Sorted(ips: set<IpAddr>): seq<IpAddr>
    decreases |ips|
  {
    if ips == {} then [] else [Least(ips)] + Sorted(ips - {Least(ips)})
  }

  predicate Ascending(s: seq<IpAddr>) {
    forall i, j | 0 <= i < j < |s| :: SortKey(s[i]) < SortKey(s[j])
  }

  lemma AscendingCons(ip: IpAddr, s: seq<IpAddr>)
    requires Ascending(s) && forall other | other in s :: SortKey(ip) < SortKey(other)
    ensures Ascending([ip] + s)
  {
  }

  lemma {:induction false} SortedLists(ips: set<IpAddr>)
    ensures |Sorted(ips)| == |ips|
    ensures forall ip :: ip in Sorted(ips) <==> ip in ips
    ensures Ascending(Sorted(ips))
    decreases |ips|
  {
    if ips != {} {
      var least := Least(ips);
      SortedLists(ips - {least});
      AscendingCons(least, Sorted(ips - {least}));
    }
  }

  function Live(blocks: BlockSnapshot, now: Instant): set<IpAddr> {
    set ip | ip in blocks && blocks[ip].deadline > now
  }

  /** The records of the live blocks, by address. */
  function FileOf(blocks: BlockSnapshot, now: Instant): StateFile {
    var ips := Sorted(Live(blocks, now));
    SortedLists(Live(blocks, now));
    assert forall i | 0 <= i < |ips| :: ips[i] in ips;
    StateFile(VERSION, seq(|ips|, i requires 0 <= i < |ips| => blocks[ips[i]].record))
  }

  /** What every in-memory block list satisfies. */
  predicate BlocksOk(blocks: BlockSnapshot, maximum: nat) {
    && |blocks| <= maximum
    && forall ip | ip in blocks ::
        && Normalized(ip)
        && blocks[ip].record.clientIp == ip
        && blocks[ip].record.expires == blocks[ip].record.created + BLOCK_SECONDS
        && blocks[ip].record.observedCount > 0
  }

  /** What loading accepts. */
  predicate Loadable(size: Size, file: StateFile, maximum: nat) {
    && size(file) <= MAX_STATE_BYTES
    && file.version == VERSION
    && |file.blocks| <= maximum
    && RowsFine(file.blocks)
  }

  predicate RowOk(record: BlockRecord) {
    record.expires == record.created + BLOCK_SECONDS && record.observedCount != 0
  }

  lemma LiveBound(blocks: BlockSnapshot, now: Instant)
    ensures |Live(blocks, now)| <= |blocks|
  {
    SubsetSize(Live(blocks, now), blocks.Keys);
  }

  /** The file holds exactly the records of the live blocks. */
  lemma FileHoldsLive(blocks: BlockSnapshot, now: Instant, record: BlockRecord)
    ensures record in FileOf(blocks, now).blocks <==>
      exists ip :: ip in blocks && blocks[ip].deadline > now && blocks[ip].record == record
  {
    var ips := Sorted(Live(blocks, now));
    SortedLists(Live(blocks, now));
    var rows := FileOf(blocks, now).blocks;
    if record in rows {
      var i :| 0 <= i < |rows| && rows[i] == record;
      assert ips[i] in ips;
    }
    if ip :| ip in blocks && blocks[ip].deadline > now && blocks[ip].record == record {
      assert ip in ips;
      var i :| 0 <= i < |ips| && ips[i] == ip;
      assert rows[i] == record;
    }
  }

  /** Whatever the gateway writes, it can load. */
  lemma WrittenIsLoadable(size: Size, blocks: BlockSnapshot, now: Instant, maximum: nat)
    requires BlocksOk(blocks, maximum)
    requires size(FileOf(blocks, now)) <= MAX_STATE_BYTES
    ensures Loadable(size, FileOf(blocks, now), maximum)
  {
    LiveBound(blocks, now);
    var ips := Sorted(Live(blocks, now));
    SortedLists(Live(blocks, now));
    var rows := FileOf(blocks, now).blocks;
    forall i | 0 <= i < |rows|
      ensures ips[i] in blocks && rows[i] == blocks[ips[i]].record
      ensures Normalize(rows[i].clientIp) == ips[i] && RowOk(rows[i])
    {
      assert ips[i] in ips;
    }
    forall i, j | 0 <= i < j < |rows|
      ensures Normalize(rows[i].clientIp) != Normalize(rows[j].clientIp)
    {
      assert SortKey(ips[i]) < SortKey(ips[j]);
    }
  }

  // ---- the file system and one atomic replacement ----

  datatype Content = Torn | Buffered(file: StateFile) | Stored(file: StateFile)

  type TempName = nat

  datatype Fs =
    Fs(current: Option<Content>, settled: Option<Content>, recent: set<Content>, temps: map<TempName, Content>)

  /** What the directory may still hold for the state path. */
  function Possible(fs: Fs): set<Option<Content>> {
    {fs.settled} + set content | content in fs.recent :: Some(content)
  }

  /** What may come back although programs see something else. */
  function Doubts(fs: Fs): set<Option<Content>> {
    Possible(fs) - {fs.current}
  }

  function Renamed(fs: Fs, temp: TempName, content: Content): Fs {
    Without(fs, temp).(current := Some(content), recent := fs.recent + {content})
  }

  function DirectorySynced(fs: Fs): Fs {
    fs.(settled := fs.current, recent := {})
  }

  /** The file system and the orphan the writer remembers. */
  datatype Disk = Disk(fs: Fs, cleanupTemp: Option<TempName>)

  datatype Stage =
    | RemoveOrphan | Create | WriteData | SyncData | Rename | SyncDirectory | RemoveTemp | Done(ok: bool)

  /** A replacement under way; the file is chosen once the orphan is out of the way. */
  datatype Job = Job(blocks: BlockSnapshot, temp: TempName, file: StateFile, stage: Stage) {
    predicate FileChosen() { !stage.RemoveOrphan? }
  }

  function StartJob(blocks: BlockSnapshot, temp: TempName): Job {
    Job(blocks, temp, StateFile(VERSION, []), RemoveOrphan)
  }

  function Without(fs: Fs, temp: TempName): Fs {
    fs.(temps := fs.temps - {temp})
  }

  function WithTemp(fs: Fs, temp: TempName, content: Content): Fs {
    fs.(temps := fs.temps[temp := content])
  }

  /** One file action; `ok` is whether the operating system carries it out. */
  function FileAction(size: Size, disk: Disk, job: Job, now: Instant, ok: bool): (Disk, Job)
    requires !job.stage.Done?
  {
    var fs := disk.fs;
    match job.stage
    case RemoveOrphan =>
      var chosen := job.(file := FileOf(job.blocks, now), stage := Create);
      if disk.cleanupTemp.None? then (disk, chosen)
      else if ok || disk.cleanupTemp.value !in fs.temps then (Disk(Without(fs, disk.cleanupTemp.value), None), chosen)
      else (disk, job.(stage := Done(false)))
    case Create =>
      if ok && size(job.file) <= MAX_STATE_BYTES && job.temp !in fs.temps then
        (disk.(fs := WithTemp(fs, job.temp, Torn)), job.(stage := WriteData))
      else (disk, job.(stage := Done(false)))
    case WriteData =>
      if ok then (disk.(fs := WithTemp(fs, job.temp, Buffered(job.file))), job.(stage := SyncData))
      else (disk, job.(stage := RemoveTemp))
    case SyncData =>
      if ok then (disk.(fs := WithTemp(fs, job.temp, Stored(job.file))), job.(stage := Rename))
      else (disk, job.(stage := RemoveTemp))
    case Rename =>
      if ok && job.temp in fs.temps then
        (disk.(fs := Renamed(fs, job.temp, fs.temps[job.temp])), job.(stage := SyncDirectory))
      else (disk, job.(stage := RemoveTemp))
    case SyncDirectory =>
      if ok then (disk.(fs := DirectorySynced(fs)), job.(stage := Done(true)))
      else (disk, job.(stage := RemoveTemp))
    case RemoveTemp =>
      if ok || job.temp !in fs.temps then (disk.(fs := Without(fs, job.temp)), job.(stage := Done(false)))
      else (disk.(cleanupTemp := Some(job.temp)), job.(stage := Done(false)))
  }

  /** Nothing but the current content can come back. */
  predicate Clean(fs: Fs) {
    fs.settled == fs.current && fs.recent == {}
  }

  /** What each stage has already achieved. */
  predicate JobSound(disk: Disk, job: Job) {
    && (job.stage.WriteData? ==> job.temp in disk.fs.temps)
    && (job.stage.SyncData? ==> job.temp in disk.fs.temps && disk.fs.temps[job.temp] == Buffered(job.file))
    && (job.stage.Rename? ==> job.temp in disk.fs.temps && disk.fs.temps[job.temp] == Stored(job.file))
    && (job.stage.SyncDirectory? ==> disk.fs.current == Some(Stored(job.file)))
    && (job.stage == Done(true) ==>
          disk.fs.current == Some(Stored(job.file)) && Clean(disk.fs))
  }

  lemma ActionKeepsSound(size: Size, disk: Disk, job: Job, now: Instant, ok: bool)
    requires JobSound(disk, job) && !job.stage.Done?
    ensures var (disk', job') := FileAction(size, disk, job, now, ok);
      && JobSound(disk', job')
      && job'.blocks == job.blocks && job'.temp == job.temp
      && (job'.file == job.file || (job.stage.RemoveOrphan? && job'.file == FileOf(job.blocks, now)))
      && (job.stage.RemoveOrphan? && job'.stage != Done(false) ==> job'.file == FileOf(job.blocks, now))
      && Remaining(job'.stage) < Remaining(job.stage)
  {
  }

  /** What survives a loss of power: any content that is possible for the state path, and synced data only. */
  ghost predicate AfterPowerLoss(before: Fs, after: Fs) {
    && Clean(after)
    && exists content :: content in Possible(before) + {before.current} && Survives(content, after.current)
  }

  ghost predicate Survives(before: Option<Content>, after: Option<Content>) {
    before == after || (before.Some? && before.value.Buffered? && after == Some(Torn))
  }

  // ---- the writer: the actions in the order of the source ----

  /** Which actions the operating system carries out. */
  datatype Outcomes = Outcomes(
    removeOrphan: bool, create: bool, write: bool, syncData: bool, rename: bool, syncDirectory: bool, removeTemp: bool)

  function OutcomeOf(outcomes: Outcomes, stage: Stage): bool {
    match stage
    case RemoveOrphan => outcomes.removeOrphan
    case Create => outcomes.create
    case WriteData => outcomes.write
    case SyncData => outcomes.syncData
    case Rename => outcomes.rename
    case SyncDirectory => outcomes.syncDirectory
    case RemoveTemp => outcomes.removeTemp
    case Done(ok) => ok
  }

  function Remaining(stage: Stage): nat {
    match stage
    case RemoveOrphan => 7
    case Create => 6
    case WriteData => 5
    case SyncData => 4
    case Rename => 3
    case SyncDirectory => 2
    case RemoveTemp => 1
    case Done(_) => 0
  }

  /** All actions of a job, one after the other. */
  function RunJob(size: Size, disk: Disk, job: Job, now: Instant, outcomes: Outcomes): (Disk, Job)
    decreases Remaining(job.stage)
  {
    if job.stage.Done? then (disk, job)
    else
      var (disk', job') := FileAction(size, disk, job, now, OutcomeOf(outcomes, job.stage));
      RunJob(size, disk', job', now, outcomes)
  }

  lemma JobStep(size: Size, disk: Disk, job: Job, now: Instant, outcomes: Outcomes)
    ensures job.stage.Done? ==> RunJob(size, disk, job, now, outcomes) == (disk, job)
    ensures !job.stage.Done? ==>
      RunJob(size, disk, job, now, outcomes) ==
        RunJob(size, FileAction(size, disk, job, now, OutcomeOf(outcomes, job.stage)).0,
          FileAction(size, disk, job, now, OutcomeOf(outcomes, job.stage)).1, now, outcomes)
  {
  }

  datatype LoadError = TooLarge | Unreadable | WrongVersionOrCapacity | BadRow | CannotCreate

  class StateWriter {
    const size: Size
    var fs: Fs
    var cleanupTemp: Option<TempName>

    constructor (size: Size, fs: Fs)
      ensures this.size == size && this.fs == fs && cleanupTemp == None
    {
      this.size := size;
      this.fs := fs;
      cleanupTemp := None;
    }

    method PersistClientIpBlocklistAtomically(blocks: BlockSnapshot, temp: TempName, now: Instant, outcomes: Outcomes)
      returns (ok: bool)
      modifies this
      ensures var (disk, job) := RunJob(size, old(Disk(fs, cleanupTemp)), StartJob(blocks, temp), now, outcomes);
        fs == disk.fs && cleanupTemp == disk.cleanupTemp && job.stage == Done(ok)
    {
      ghost var final := RunJob(size, Disk(fs, cleanupTemp), StartJob(blocks, temp), now, outcomes);
      var orphan := cleanupTemp;
      cleanupTemp := None;
      if orphan.Some? {
        if outcomes.removeOrphan || orphan.value !in fs.temps {
          fs := fs.(temps := fs.temps - {orphan.value});
        } else {
          cleanupTemp := orphan;
          JobStep(size, Disk(fs, cleanupTemp), StartJob(blocks, temp), now, outcomes);
          return false;
        }
      }
      var file := FileOf(blocks, now);
      assert final == RunJob(size, Disk(fs, cleanupTemp), Job(blocks, temp, file, Create), now, outcomes);
      if size(file) > MAX_STATE_BYTES {
        JobStep(size, Disk(fs, cleanupTemp), Job(blocks, temp, file, Create), now, outcomes);
        return false;
      }
      ok := ReplaceFile(blocks, temp, file, now, outcomes);
    }

    /** Write beside the file, sync, rename over it, sync the directory; remove the temporary after a failure. */
    method ReplaceFile(ghost blocks: BlockSnapshot, temp: TempName, file: StateFile, ghost now: Instant,
      outcomes: Outcomes) returns (ok: bool)
      requires size(file) <= MAX_STATE_BYTES && cleanupTemp.None?
      modifies this
      ensures RunJob(size, old(Disk(fs, cleanupTemp)), Job(blocks, temp, file, Create), now, outcomes) ==
        (Disk(fs, cleanupTemp), Job(blocks, temp, file, Done(ok)))
    {
      ghost var final := RunJob(size, Disk(fs, cleanupTemp), Job(blocks, temp, file, Create), now, outcomes);
      if !outcomes.create || temp in fs.temps {
        JobStep(size, Disk(fs, cleanupTemp), Job(blocks, temp, file, Create), now, outcomes);
        return false;
      }
      fs := fs.(temps := fs.temps[temp := Torn]);
      assert final == RunJob(size, Disk(fs, cleanupTemp), Job(blocks, temp, file, WriteData), now, outcomes);
      if outcomes.write {
        fs := fs.(temps := fs.temps[temp := Buffered(file)]);
        assert final == RunJob(size, Disk(fs, cleanupTemp), Job(blocks, temp, file, SyncData), now, outcomes);
        if outcomes.syncData {
          fs := fs.(temps := fs.temps[temp := Stored(file)]);
          assert final == RunJob(size, Disk(fs, cleanupTemp), Job(blocks, temp, file, Rename), now, outcomes);
          if outcomes.rename {
            fs := Renamed(fs, temp, fs.temps[temp]);
            assert final == RunJob(size, Disk(fs, cleanupTemp), Job(blocks, temp, file, SyncDirectory), now, outcomes);
            JobStep(size, Disk(fs, cleanupTemp), Job(blocks, temp, file, SyncDirectory), now, outcomes);
            if outcomes.syncDirectory {
              fs := DirectorySynced(fs);
              return true;
            }
          }
        }
      }
      assert final == RunJob(size, Disk(fs, cleanupTemp), Job(blocks, temp, file, RemoveTemp), now, outcomes);
      JobStep(size, Disk(fs, cleanupTemp), Job(blocks, temp, file, RemoveTemp), now, outcomes);
      if outcomes.removeTemp || temp !in fs.temps {
        fs := fs.(temps := fs.temps - {temp});
      } else {
        cleanupTemp := Some(temp);
      }
      return false;
    }

    /** Reads the state file; an absent one is created empty. */
    method LoadClientIpBlocklist(maximum: nat, wall: u64, now: Instant, temp: TempName, outcomes: Outcomes)
      returns (r: Result<BlockSnapshot, LoadError>)
      modifies this
      ensures old(fs).current.None? ==>
        && (r.Ok? ==> r.value == map[] && fs.current == Some(Stored(StateFile(VERSION, []))) && Clean(fs))
        && (r.Err? ==> r.error == CannotCreate)
      ensures old(fs).current.Some? ==> unchanged(this)
      ensures old(fs).current.Some? ==>
        (r.Ok? <==> old(fs).current.value.Stored? && Loadable(size, old(fs).current.value.file, maximum))
      ensures old(fs).current.Some? && r.Ok? ==> RestoredFrom(old(fs).current.value.file.blocks, wall, now, r.value)
    {
      if fs.current.None? {
        EmptyJob(size, Disk(fs, cleanupTemp), temp, now, outcomes);
        var created := PersistClientIpBlocklistAtomically(map[], temp, now, outcomes);
        return if created then Ok(map[]) else Err(CannotCreate);
      }
      if !fs.current.value.Stored? {
        return Err(Unreadable);
      }
      var disk := fs.current.value.file;
      if size(disk) > MAX_STATE_BYTES {
        return Err(TooLarge);
      }
      if disk.version != VERSION || |disk.blocks| > maximum {
        return Err(WrongVersionOrCapacity);
      }
      r := RestoreRows(disk.blocks, wall, now);
    }
  }

  predicate DistinctRows(rows: seq<BlockRecord>) {
    forall i, j | 0 <= i < j < |rows| :: Normalize(rows[i].clientIp) != Normalize(rows[j].clientIp)
  }

  function Addresses(rows: seq<BlockRecord>): set<IpAddr> {
    set i | 0 <= i < |rows| :: Normalize(rows[i].clientIp)
  }

  predicate RowsFine(rows: seq<BlockRecord>) {
    (forall i | 0 <= i < |rows| :: RowOk(rows[i])) && DistinctRows(rows)
  }

  lemma RowsFineAppend(rows: seq<BlockRecord>, row: BlockRecord)
    ensures Addresses(rows + [row]) == Addresses(rows) + {Normalize(row.clientIp)}
    ensures RowsFine(rows + [row]) <==> RowsFine(rows) && RowOk(row) && Normalize(row.clientIp) !in Addresses(rows)
  {
    var all := rows + [row];
    assert all[|rows|] == row && forall i | 0 <= i < |rows| :: all[i] == rows[i];
    forall ip
      ensures ip in Addresses(all) <==> ip in Addresses(rows) + {Normalize(row.clientIp)}
    {
      if ip in Addresses(rows) {
        var i :| 0 <= i < |rows| && Normalize(rows[i].clientIp) == ip;
        assert Normalize(all[i].clientIp) == ip;
      }
    }
  }

  lemma RowsFinePrefix(rows: seq<BlockRecord>, n: nat)
    requires n <= |rows|
    ensures RowsFine(rows) ==> RowsFine(rows[..n])
  {
  }

  /** Checks the rows one by one and turns the unexpired ones into blocks. */
  method RestoreRows(rows: seq<BlockRecord>, wall: u64, now: Instant) returns (r: Result<BlockSnapshot, LoadError>)
    ensures r.Ok? <==> RowsFine(rows)
    ensures r.Ok? ==> RestoredFrom(rows, wall, now, r.value)
  {
    var blocks: BlockSnapshot := map[];
    var seen: set<IpAddr> := {};
    for i := 0 to |rows|
      invariant seen == Addresses(rows[..i])
      invariant RowsFine(rows[..i])
      invariant RestoredFrom(rows[..i], wall, now, blocks)
    {
      var record := rows[i];
      RowsFineAppend(rows[..i], record);
      assert rows[..i + 1] == rows[..i] + [record];
      record := record.(clientIp := Normalize(record.clientIp));
      if record.expires < record.created || record.expires - record.created != BLOCK_SECONDS
        || record.observedCount == 0 || record.clientIp in seen
      {
        RowsFinePrefix(rows, i + 1);
        return Err(BadRow);
      }
      seen := seen + {record.clientIp};
      var restored := RestoreRow(record, wall, now);
      RestoredAppend(rows[..i], rows[i], wall, now, blocks);
      if restored.Some? {
        blocks := blocks[record.clientIp := restored.value];
      }
    }
    assert rows[..|rows|] == rows;
    return Ok(blocks);
  }

  /** The block of one checked row; the clock overflow the code guards against cannot happen. */
  method RestoreRow(row: BlockRecord, wall: u64, now: Instant) returns (r: Option<ActiveBlock>)
    requires Normalized(row.clientIp)
    ensures r == if row.expires > wall then Some(Restored(row, wall, now)) else None
  {
    var record := row;
    var left: nat := if record.expires >= wall then record.expires - wall else 0;
    var remaining := if left <= BLOCK_SECONDS then left else BLOCK_SECONDS;
    if left > BLOCK_SECONDS {
      if wall + BLOCK_SECONDS >= U64_LIMIT {
        assert false;
        return None;
      }
      record := record.(created := wall, expires := wall + BLOCK_SECONDS);
    }
    return if remaining != 0 then Some(ActiveBlock(record, now + remaining * SECOND)) else None;
  }

  // ---- what loading restores ----

  /** The in-memory block for one row: time left is at most a day, and a row from the future is cut to a day. */
  function Restored(record: BlockRecord, wall: u64, now: Instant): ActiveBlock
    requires record.expires > wall
  {
    var normal := record.(clientIp := Normalize(record.clientIp));
    if record.expires - wall > BLOCK_SECONDS then
      ActiveBlock(normal.(created := wall, expires := wall + BLOCK_SECONDS), now + BLOCK_SECONDS * SECOND)
    else ActiveBlock(normal, now + (record.expires - wall) * SECOND)
  }

  predicate Restores(record: BlockRecord, ip: IpAddr, wall: u64) {
    Normalize(record.clientIp) == ip && record.expires > wall
  }

  /** The map holds the block of every unexpired row, and nothing else. */
  ghost predicate RestoredFrom(rows: seq<BlockRecord>, wall: u64, now: Instant, blocks: BlockSnapshot) {
    && (forall i | 0 <= i < |rows| && rows[i].expires > wall ::
          Normalize(rows[i].clientIp) in blocks && blocks[Normalize(rows[i].clientIp)] == Restored(rows[i], wall, now))
    && (forall ip | ip in blocks :: exists i :: 0 <= i < |rows| && Restores(rows[i], ip, wall))
  }

  lemma RestoredAppend(rows: seq<BlockRecord>, row: BlockRecord, wall: u64, now: Instant, blocks: BlockSnapshot)
    requires RestoredFrom(rows, wall, now, blocks)
    requires Normalize(row.clientIp) !in Addresses(rows)
    ensures row.expires <= wall ==> RestoredFrom(rows + [row], wall, now, blocks)
    ensures row.expires > wall ==>
      RestoredFrom(rows + [row], wall, now, blocks[Normalize(row.clientIp) := Restored(row, wall, now)])
  {
    var all := rows + [row];
    assert all[|rows|] == row;
    assert forall i | 0 <= i < |rows| :: Normalize(rows[i].clientIp) in Addresses(rows);
    forall ip | ip in blocks
      ensures exists i :: 0 <= i < |all| && Restores(all[i], ip, wall)
    {
      var i :| 0 <= i < |rows| && Restores(rows[i], ip, wall);
      assert Restores(all[i], ip, wall);
    }
    assert row.expires > wall ==> Restores(all[|rows|], Normalize(row.clientIp), wall);
  }

  lemma EmptyJob(size: Size, disk: Disk, temp: TempName, now: Instant, outcomes: Outcomes)
    ensures var (after, job) := RunJob(size, disk, StartJob(map[], temp), now, outcomes);
      job.stage == Done(true) ==>
        after.fs.current == Some(Stored(StateFile(VERSION, []))) && Clean(after.fs)
  {
    assert Live(map[], now) == {};
    assert FileOf(map[], now) == StateFile(VERSION, []);
    JobCommits(size, disk, StartJob(map[], temp), now, outcomes);
  }

  /** A job that reports success has put its file in place and settled it. */
  lemma {:induction false} JobCommits(size: Size, disk: Disk, job: Job, now: Instant, outcomes: Outcomes)
    requires JobSound(disk, job)
    requires job.FileChosen() ==> job.file == FileOf(job.blocks, now)
    ensures var (after, done) := RunJob(size, disk, job, now, outcomes);
      done.stage == Done(true) ==>
        after.fs.current == Some(Stored(FileOf(job.blocks, now))) && Clean(after.fs)
    decreases Remaining(job.stage)
  {
    JobStep(size, disk, job, now, outcomes);
    if !job.stage.Done? {
      var ok := OutcomeOf(outcomes, job.stage);
      ActionKeepsSound(size, disk, job, now, ok);
      var (disk', job') := FileAction(size, disk, job, now, ok);
      if job'.FileChosen() && job'.stage != Done(false) {
        JobCommits(size, disk', job', now, outcomes);
      }
    }
  }

  /** Nothing is left over from before, or what is left is gone or can be removed. */
  predicate OrphanCleared(disk: Disk, outcomes: Outcomes) {
    disk.cleanupTemp.None? || outcomes.removeOrphan || disk.cleanupTemp.value !in disk.fs.temps
  }

  /** The temporary files once the orphan is out of the way. */
  function TempsCleared(disk: Disk): map<TempName, Content> {
    if disk.cleanupTemp.Some? then disk.fs.temps - {disk.cleanupTemp.value} else disk.fs.temps
  }

  /** A job on a disk without an orphan, from the creation of its temporary file on. */
  lemma FromCreateExactly(size: Size, disk: Disk, job: Job, now: Instant, outcomes: Outcomes)
    requires disk.cleanupTemp.None? && job.stage.Create?
    ensures var (after, done) := RunJob(size, disk, job, now, outcomes);
      var created := size(job.file) <= MAX_STATE_BYTES && outcomes.create && job.temp !in disk.fs.temps;
      var replaced := created && outcomes.write && outcomes.syncData && outcomes.rename;
      var left := created && !replaced && !outcomes.removeTemp;
      && done.stage == Done(replaced && outcomes.syncDirectory)
      && after.fs.current == (if replaced then Some(Stored(job.file)) else disk.fs.current)
      && after.fs.temps.Keys == (if left then disk.fs.temps.Keys + {job.temp} else disk.fs.temps.Keys)
      && after.cleanupTemp == (if left then Some(job.temp) else None)
  {
    JobStep(size, disk, job, now, outcomes);
    if size(job.file) <= MAX_STATE_BYTES && outcomes.create && job.temp !in disk.fs.temps {
      var written := Disk(WithTemp(disk.fs, job.temp, Torn), None);
      FromWriteExactly(size, written, job.(stage := WriteData), now, outcomes);
      assert written.fs.temps.Keys - {job.temp} == disk.fs.temps.Keys;
    }
  }

  lemma FromWriteExactly(size: Size, disk: Disk, job: Job, now: Instant, outcomes: Outcomes)
    requires disk.cleanupTemp.None? && job.stage.WriteData? && job.temp in disk.fs.temps
    ensures var (after, done) := RunJob(size, disk, job, now, outcomes);
      var replaced := outcomes.write && outcomes.syncData && outcomes.rename;
      var left := !replaced && !outcomes.removeTemp;
      && done.stage == Done(replaced && outcomes.syncDirectory)
      && after.fs.current == (if replaced then Some(Stored(job.file)) else disk.fs.current)
      && after.fs.temps.Keys == (if left then disk.fs.temps.Keys else disk.fs.temps.Keys - {job.temp})
      && after.cleanupTemp == (if left then Some(job.temp) else None)
  {
    JobStep(size, disk, job, now, outcomes);
    if outcomes.write {
      var buffered := disk.(fs := WithTemp(disk.fs, job.temp, Buffered(job.file)));
      JobStep(size, buffered, job.(stage := SyncData), now, outcomes);
      assert buffered.fs.temps.Keys == disk.fs.temps.Keys;
      if outcomes.syncData {
        var stored := buffered.(fs := WithTemp(buffered.fs, job.temp, Stored(job.file)));
        assert stored.fs.temps.Keys == disk.fs.temps.Keys;
        FromRenameExactly(size, stored, job.(stage := Rename), now, outcomes);
      } else {
        FromRemoveExactly(size, buffered, job.(stage := RemoveTemp), now, outcomes);
      }
    } else {
      FromRemoveExactly(size, disk, job.(stage := RemoveTemp), now, outcomes);
    }
  }

  lemma FromRenameExactly(size: Size, disk: Disk, job: Job, now: Instant, outcomes: Outcomes)
    requires disk.cleanupTemp.None? && job.stage.Rename?
    requires job.temp in disk.fs.temps && disk.fs.temps[job.temp] == Stored(job.file)
    ensures var (after, done) := RunJob(size, disk, job, now, outcomes);
      var left := !outcomes.rename && !outcomes.removeTemp;
      && done.stage == Done(outcomes.rename && outcomes.syncDirectory)
      && after.fs.current == (if outcomes.rename then Some(Stored(job.file)) else disk.fs.current)
      && after.fs.temps.Keys == (if left then disk.fs.temps.Keys else disk.fs.temps.Keys - {job.temp})
      && after.cleanupTemp == (if left then Some(job.temp) else None)
  {
    JobStep(size, disk, job, now, outcomes);
    if outcomes.rename {
      var renamed := disk.(fs := Renamed(disk.fs, job.temp, Stored(job.file)));
      JobStep(size, renamed, job.(stage := SyncDirectory), now, outcomes);
      if !outcomes.syncDirectory {
        FromRemoveExactly(size, renamed, job.(stage := RemoveTemp), now, outcomes);
      }
    } else {
      FromRemoveExactly(size, disk, job.(stage := RemoveTemp), now, outcomes);
    }
  }

  lemma FromRemoveExactly(size: Size, disk: Disk, job: Job, now: Instant, outcomes: Outcomes)
    requires disk.cleanupTemp.None? && job.stage.RemoveTemp?
    ensures var (after, done) := RunJob(size, disk, job, now, outcomes);
      var left := job.temp in disk.fs.temps && !outcomes.removeTemp;
      && done.stage == Done(false)
      && after.fs.current == disk.fs.current
      && after.fs.temps.Keys == (if left then disk.fs.temps.Keys else disk.fs.temps.Keys - {job.temp})
      && after.cleanupTemp == (if left then Some(job.temp) else None)
  {
    JobStep(size, disk, job, now, outcomes);
  }

  /**
  Exactly when a job succeeds, and what it leaves.  It needs the orphan out of the way, a file of
  permitted size, a fresh name, and every action up to the directory sync.  The new file is current
  once the rename is done.  A temporary file stays behind only when it cannot be removed, and then
  it is the one remembered.
  */
  lemma JobEndsExactly(size: Size, disk: Disk, blocks: BlockSnapshot, temp: TempName, now: Instant, outcomes: Outcomes)
    ensures var (after, done) := RunJob(size, disk, StartJob(blocks, temp), now, outcomes);
      var created := OrphanCleared(disk, outcomes) && size(FileOf(blocks, now)) <= MAX_STATE_BYTES
                     && outcomes.create && temp !in TempsCleared(disk);
      var replaced := created && outcomes.write && outcomes.syncData && outcomes.rename;
      && done.stage == Done(replaced && outcomes.syncDirectory)
      && after.fs.current == (if replaced then Some(Stored(FileOf(blocks, now))) else disk.fs.current)
      && (!OrphanCleared(disk, outcomes) ==> after == disk)
      && (OrphanCleared(disk, outcomes) ==>
            var left := created && !replaced && !outcomes.removeTemp;
            && after.fs.temps.Keys == TempsCleared(disk).Keys + (if left then {temp} else {})
            && after.cleanupTemp == (if left then Some(temp) else None))
  {
    var start := StartJob(blocks, temp);
    JobStep(size, disk, start, now, outcomes);
    if OrphanCleared(disk, outcomes) {
      var cleared := Disk(disk.fs.(temps := TempsCleared(disk)), None);
      FromCreateExactly(size, cleared, start.(file := FileOf(blocks, now), stage := Create), now, outcomes);
    }
  }

  /** A job that does not report success leaves the settled content alone. */
  lemma {:induction false} FailedJobSettlesNothing(size: Size, disk: Disk, job: Job, now: Instant, outcomes: Outcomes)
    ensures var r := RunJob(size, disk, job, now, outcomes);
      r.1.stage.Done? && (r.1.stage == Done(true) || r.0.fs.settled == disk.fs.settled)
    decreases Remaining(job.stage)
  {
    JobStep(size, disk, job, now, outcomes);
    if !job.stage.Done? {
      var r := FileAction(size, disk, job, now, OutcomeOf(outcomes, job.stage));
      FailedJobSettlesNothing(size, r.0, r.1, now, outcomes);
      JobStep(size, r.0, r.1, now, outcomes);
    }
  }

  // ---- the first file ----

  /** One attempt to create an absent state file. */
  datatype Try = Try(temp: TempName, at: Instant, outcomes: Outcomes)

  /** Starting creates an absent file empty; a start that fails to may be repeated. */
  function Created(size: Size, fs: Fs, tries: seq<Try>): Fs
    decreases |tries|
  {
    if fs.current.Some? || tries == [] then fs
    else
      var created := RunJob(size, Disk(fs, None), StartJob(map[], tries[0].temp), tries[0].at, tries[0].outcomes).0.fs;
      Created(size, created, tries[1..])
  }

  // ---- deadlines across a reload ----

  /** The wall clock, in whole seconds, when it runs `offset` ahead of the monotonic clock. */
  function WallAt(now: Instant, offset: nat): nat {
    (now + offset) / SECOND
  }

  /** The recorded expiry is the deadline, to the second, on clocks that advance together. */
  predicate Aligned(block: ActiveBlock, offset: nat) {
    block.record.expires * SECOND <= block.deadline + offset < block.record.expires * SECOND + SECOND
  }

  /** A new block is a day long on both clocks. */
  lemma NewBlockAligned(record: BlockRecord, now: Instant, offset: nat)
    requires record.expires == WallAt(now, offset) + BLOCK_SECONDS
    ensures Aligned(ActiveBlock(record, now + BLOCK_SECONDS * SECOND), offset)
  {
  }

  /** A reloaded row is aligned whatever it was before. */
  lemma RestoredAligned(record: BlockRecord, wall: u64, now: Instant, offset: nat)
    requires record.expires > wall && wall == WallAt(now, offset)
    ensures Aligned(Restored(record, wall, now), offset)
  {
  }

  /** Reloading keeps a deadline to the second, however often it happens, while the clocks agree. */
  lemma ReloadKeepsDeadline(block: ActiveBlock, now: Instant, offset: nat, wall: u64)
    requires Aligned(block, offset) && wall == WallAt(now, offset) && block.record.expires > wall
    ensures Aligned(Restored(block.record, wall, now), offset)
    ensures block.record.expires - wall <= BLOCK_SECONDS ==>
      && Restored(block.record, wall, now).deadline < block.deadline + SECOND
      && block.deadline < Restored(block.record, wall, now).deadline + SECOND
  {
  }

  /** A block with at least a second left is never dropped by a reload while the clocks agree. */
  lemma ReloadKeepsBlock(block: ActiveBlock, now: Instant, offset: nat, wall: u64)
    requires Aligned(block, offset) && wall == WallAt(now, offset)
    ensures block.deadline >= now + SECOND ==> block.record.expires > wall
    ensures block.record.expires > wall ==> block.deadline > now
  {
  }

  /**
  Exactly which live blocks a reload drops, on clocks that kept step: those whose deadline falls in
  the second of the wall clock in which the reload takes place.
  */
  lemma DroppedExactly(block: ActiveBlock, now: Instant, offset: nat, wall: u64, blocks: BlockSnapshot)
    requires Aligned(block, offset) && wall == WallAt(now, offset) && block.deadline > now
    requires RestoredFrom([block.record], wall, now, blocks)
    ensures Normalize(block.record.clientIp) in blocks <==> block.record.expires > wall
    ensures block.record.expires <= wall <==> WallAt(block.deadline, offset) == WallAt(now, offset)
  {
    var rows := [block.record];
    assert rows[0] == block.record;
  }

  /** Whatever the clocks did, a reloaded block ends within a day. */
  lemma RestoredWithinADay(record: BlockRecord, wall: u64, now: Instant)
    requires record.expires > wall
    ensures now < Restored(record, wall, now).deadline <= now + BLOCK_SECONDS * SECOND
    ensures RowOk(record) ==> RowOk(Restored(record, wall, now).record)
    ensures Normalized(Restored(record, wall, now).record.clientIp)
  {
    NormalizeOnce(record.clientIp);
  }

  /** What loading puts in memory again satisfies what the writer relies on. */
  lemma RestoredBlocksOk(size: Size, file: StateFile, maximum: nat, wall: u64, now: Instant, blocks: BlockSnapshot)
    requires Loadable(size, file, maximum) && RestoredFrom(file.blocks, wall, now, blocks)
    ensures BlocksOk(blocks, maximum)
  {
    var ips := Addresses(file.blocks);
    forall ip | ip in blocks
      ensures ip in ips && Normalized(ip)
      ensures blocks[ip].record.clientIp == ip
      ensures RowOk(blocks[ip].record)
    {
      var i :| 0 <= i < |file.blocks| && Restores(file.blocks[i], ip, wall);
      assert blocks[ip] == Restored(file.blocks[i], wall, now);
      RestoredWithinADay(file.blocks[i], wall, now);
    }
    ImageSize(file.blocks);
    SubsetSize(blocks.Keys, ips);
  }

  lemma {:induction false} ImageSize(rows: seq<BlockRecord>)
    ensures |Addresses(rows)| <= |rows|
    decreases |rows|
  {
    if rows == [] {
      assert Addresses(rows) == {};
    } else {
      var rest := rows[..|rows| - 1];
      ImageSize(rest);
      RowsFineAppend(rest, rows[|rows| - 1]);
      assert rows == rest + [rows[|rows| - 1]];
    }
  }
}
