/** internal/spool/spool.go: the spool directory, one sub-directory per peer, one file per
    queued item, written through a temporary file and a rename.

    The disk is a value; the class records every state the disk passes through, so the
    contract of Write speaks about what a crash at any point leaves behind. */
module SpoolStore {
  import opened Base

  datatype Kind = Shard | ManifestBlob

  type Dir = map<string, Bytes>
  type Disk = map<Peer, Dir>

  function Letter(kind: Kind): char {
    if kind.Shard? then 's' else 'm'
  }

  function Name(kind: Kind, key: string): string {
    [Letter(kind)] + "_" + key
  }

  predicate IsTemp(name: string) {
    ".tmp-" <= name
  }

  /** What ListEntries makes of a file name. */
  function ParseName(name: string): Option<(Kind, string)> {
    if IsTemp(name) then None
    else if |name| < 3 || name[1] != '_' then None
    else if name[0] == 's' then Some((Shard, name[2..]))
    else if name[0] == 'm' then Some((ManifestBlob, name[2..]))
    else None
  }

  /** Every item with a key is listed under its own kind and key. */
  lemma NameRoundTrip(kind: Kind, key: string)
    ensures ParseName(Name(kind, key)) == if key == "" then None else Some((kind, key))
    ensures Name(Shard, key) == "s_" + key && Name(ManifestBlob, key) == "m_" + key
  {
    var name := Name(kind, key);
    assert name[0] != '.';
    assert name[2..] == key;
  }

  /** Two items share a file only if they are the same item; the converse of NameRoundTrip:
      a listed name is the name of the item it is listed as. */
  lemma NameIsTheItem(name: string, kind: Kind, key: string)
    ensures ParseName(name) == Some((kind, key)) <==> key != "" && name == Name(kind, key)
  {
    NameRoundTrip(kind, key);
    if ParseName(name) == Some((kind, key)) {
      assert name == [name[0]] + [name[1]] + name[2..];
    }
  }

  // ---- Disk operations ----

  function Made(d: Disk, p: Peer): Disk {
    if p in d then d else d[p := map[]]
  }

  function Stored(d: Disk, p: Peer, name: string, data: Bytes): Disk
    requires p in d
  {
    d[p := d[p][name := data]]
  }

  function Dropped(d: Disk, p: Peer, name: string): Disk
    requires p in d
  {
    d[p := d[p] - {name}]
  }

  function Renamed(d: Disk, p: Peer, from: string, to: string): Disk
    requires p in d && from in d[p]
  {
    d[p := (d[p] - {from})[to := d[p][from]]]
  }

  function Pruned(d: Disk, p: Peer): Disk {
    if p in d && d[p] == map[] then d - {p} else d
  }

  /** Where a write stops. */
  datatype Trouble = Smooth | NoMkdir | NoTemp | WriteCut(n: nat) | CloseFailed | NoRename

  /** The disk after `write`: refused before its mkdir, given up with the directory made, left
      with a temporary file, or done. */
  function AfterWrite(d: Disk, p: Peer, kind: Kind, key: string, data: Bytes, temp: string, trouble: Trouble): Disk {
    if p == "" || key == "" || trouble.NoMkdir? then d
    else if trouble.Smooth? then Stored(Made(d, p), p, Name(kind, key), data)
    else if trouble.NoRename? then Stored(Made(d, p), p, temp, data)
    else Made(d, p)
  }

  /** `Remove` prunes without the lock that `write` holds. Pruning a directory that a write has
      just made takes it away again, and the write finds no place for its temporary file. */
  lemma PrunedUnderWrite(d: Disk, p: Peer)
    ensures p !in Pruned(Made(d, p), p) <==> p !in d || d[p] == map[]
  {
  }

  /** The disk after `Remove` of an item, if the file can be removed or was not there. */
  function AfterRemove(d: Disk, p: Peer, kind: Kind, key: string): Disk {
    if p !in d then d else Pruned(Dropped(d, p, Name(kind, key)), p)
  }

  // ---- What the disk holds, seen as a queue ----

  function Queued(d: Disk, p: Peer, kind: Kind, key: string): Option<Bytes> {
    if p in d && Name(kind, key) in d[p] then Some(d[p][Name(kind, key)]) else None
  }

  ghost predicate SameQueue(d: Disk, e: Disk) {
    forall p, kind, key :: Queued(d, p, kind, key) == Queued(e, p, kind, key)
  }

  /** e is d with one item set to `value`. */
  ghost predicate OneSet(d: Disk, e: Disk, p: Peer, kind: Kind, key: string, value: Option<Bytes>) {
    forall q, l, other :: Queued(e, q, l, other) ==
      if q == p && l == kind && other == key then value else Queued(d, q, l, other)
  }

  lemma NamesDiffer(kind: Kind, key: string, l: Kind, other: string)
    ensures Name(kind, key) == Name(l, other) <==> kind == l && key == other
    ensures !IsTemp(Name(kind, key))
  {
    assert Name(kind, key)[0] == Letter(kind) && Name(l, other)[0] == Letter(l);
    assert Name(kind, key)[2..] == key && Name(l, other)[2..] == other;
  }

  lemma MakingIsInvisible(d: Disk, p: Peer)
    ensures SameQueue(d, Made(d, p))
  {
  }

  lemma TempsAreInvisible(d: Disk, p: Peer, name: string, data: Bytes)
    requires p in d && IsTemp(name)
    ensures SameQueue(d, Stored(d, p, name, data))
    ensures SameQueue(d, Dropped(d, p, name))
  {
    forall q, kind, key
      ensures Queued(d, q, kind, key) == Queued(Stored(d, p, name, data), q, kind, key)
      ensures Queued(d, q, kind, key) == Queued(Dropped(d, p, name), q, kind, key)
    {
      NamesDiffer(kind, key, kind, key);
    }
  }

  lemma RenameSetsOne(d: Disk, p: Peer, from: string, kind: Kind, key: string)
    requires p in d && IsTemp(from) && from in d[p]
    ensures OneSet(d, Renamed(d, p, from, Name(kind, key)), p, kind, key, Some(d[p][from]))
  {
    forall q, l, other
      ensures Queued(Renamed(d, p, from, Name(kind, key)), q, l, other) ==
        if q == p && l == kind && other == key then Some(d[p][from]) else Queued(d, q, l, other)
    {
      NamesDiffer(kind, key, l, other);
      NamesDiffer(l, other, l, other);
    }
  }

  /** A temporary file that comes and goes, or is renamed, leaves no other trace. */
  lemma DroppedAgain(d: Disk, p: Peer, temp: string, data: Bytes)
    requires p in d && temp !in d[p]
    ensures Dropped(Stored(Stored(d, p, temp, []), p, temp, data), p, temp) == d
  {
    assert Dropped(Stored(Stored(d, p, temp, []), p, temp, data), p, temp)[p] == d[p];
  }

  lemma StoredTwice(d: Disk, p: Peer, name: string, data: Bytes)
    requires p in d
    ensures Stored(Stored(d, p, name, []), p, name, data) == Stored(d, p, name, data)
  {
    assert d[p][name := []][name := data] == d[p][name := data];
  }

  lemma RenamedIsStored(d: Disk, p: Peer, temp: string, data: Bytes, name: string)
    requires p in d && temp !in d[p] && temp != name
    ensures Renamed(Stored(Stored(d, p, temp, []), p, temp, data), p, temp, name) == Stored(d, p, name, data)
  {
    assert Renamed(Stored(Stored(d, p, temp, []), p, temp, data), p, temp, name)[p] == d[p][name := data];
  }

  lemma DropClearsOne(d: Disk, p: Peer, kind: Kind, key: string)
    requires p in d
    ensures OneSet(d, Pruned(Dropped(d, p, Name(kind, key)), p), p, kind, key, None)
  {
    var e := Dropped(d, p, Name(kind, key));
    forall q, l, other
      ensures Queued(Pruned(e, p), q, l, other) ==
        if q == p && l == kind && other == key then None else Queued(d, q, l, other)
    {
      NamesDiffer(kind, key, l, other);
      if q == p && Name(l, other) in d[p] && !(l == kind && other == key) {
        assert Name(l, other) in e[p];
      }
    }
  }

  lemma DropAddsNothing(d: Disk, p: Peer, name: string)
    requires p in d
    ensures forall q, kind, key :: Queued(d, q, kind, key).None? ==>
              Queued(Pruned(Dropped(d, p, name), p), q, kind, key).None?
  {
  }

  // ---- The spool ----

  datatype Path = NoPath | At(dir: Peer, name: string)
  datatype Entry = Entry(peer: Peer, kind: Kind, key: string, path: Path)

  function Item(p: Peer, kind: Kind, key: string): Entry {
    Entry(p, kind, key, At(p, Name(kind, key)))
  }

  /** Exactly the queued items of p, each once. */
  ghost predicate Lists(d: Disk, p: Peer, out: seq<Entry>) {
    && NoDup(out)
    && (forall e :: e in out ==> e == Item(p, e.kind, e.key) && e.key != "" && Queued(d, p, e.kind, e.key).Some?)
    && (forall kind, key :: key != "" && Queued(d, p, kind, key).Some? ==> Item(p, kind, key) in out)
  }

  class Spool {
    var disk: Disk
    ghost var states: seq<Disk>

    ghost predicate Valid()
      reads this
    {
      && |states| > 0 && states[|states| - 1] == disk
      && forall p, kind :: Queued(disk, p, kind, "") == None
    }

    constructor ()
      ensures Valid() && disk == map[]
    {
      disk := map[];
      states := [map[]];
    }

    method Become(d: Disk)
      modifies this
      ensures disk == d && states == old(states) + [d]
    {
      disk, states := d, states + [d];
    }

    /** Every disk state on the way, whatever goes wrong, shows the queue as it was; only a
        write that succeeds changes it, in its last step, and then in that one item. */
    method Write(p: Peer, kind: Kind, key: string, data: Bytes, temp: string, trouble: Trouble)
      returns (r: Result<()>)
      requires Valid()
      requires IsTemp(temp) && (p in disk ==> temp !in disk[p])
      modifies this
      ensures Valid() && old(states) <= states
      ensures r.Ok? <==> p != "" && key != "" && trouble.Smooth?
      ensures disk == AfterWrite(old(disk), p, kind, key, data, temp, trouble)
      ensures r.Ok? ==> OneSet(old(disk), disk, p, kind, key, Some(data))
      ensures r.Err? ==> SameQueue(old(disk), disk)
      ensures forall i :: |old(states)| <= i < |states| - 1 ==> SameQueue(old(disk), states[i])
    {
      if p == "" || key == "" {
        return Err("spool: empty peer id or key");
      }
      if trouble.NoMkdir? {
        return Err("mkdir");
      }
      MakingIsInvisible(disk, p);
      Become(Made(disk, p));
      if trouble.NoTemp? {
        return Err("create temp");
      }
      r := Fill(p, kind, key, data, temp, trouble, old(disk), |old(states)|);
    }

    /** The part of Write that follows the creation of the temporary file. */
    method Fill(p: Peer, kind: Kind, key: string, data: Bytes, temp: string, trouble: Trouble, ghost was: Disk,
                ghost since: nat)
      returns (r: Result<()>)
      requires Valid() && p in disk && key != ""
      requires IsTemp(temp) && temp !in disk[p]
      requires SameQueue(was, disk) && since < |states|
      requires forall i :: since <= i < |states| ==> SameQueue(was, states[i])
      modifies this
      ensures Valid() && old(states) <= states
      ensures r.Ok? <==> !(trouble.WriteCut? || trouble.CloseFailed? || trouble.NoRename?)
      ensures disk == if trouble.WriteCut? || trouble.CloseFailed? then old(disk)
                      else if trouble.NoRename? then Stored(old(disk), p, temp, data)
                      else Stored(old(disk), p, Name(kind, key), data)
      ensures r.Ok? ==> OneSet(was, disk, p, kind, key, Some(data))
      ensures r.Err? ==> SameQueue(was, disk)
      ensures forall i :: since <= i < |states| - 1 ==> SameQueue(was, states[i])
    {
      ghost var d := disk;
      TempsAreInvisible(d, p, temp, []);
      Become(Stored(disk, p, temp, []));
      var cut := if trouble.WriteCut? then Min(trouble.n, |data|) else |data|;
      TempsAreInvisible(disk, p, temp, data[..cut]);
      Become(Stored(disk, p, temp, data[..cut]));
      if trouble.WriteCut? || trouble.CloseFailed? {
        TempsAreInvisible(disk, p, temp, []);
        Become(Dropped(disk, p, temp));
        DroppedAgain(old(disk), p, temp, data[..cut]);
        return Err("write");
      }
      assert data[..cut] == data;
      if trouble.NoRename? {
        StoredTwice(old(disk), p, temp, data);
        return Err("rename");
      }
      NamesDiffer(kind, key, kind, key);
      RenameSetsOne(disk, p, temp, kind, key);
      RenamedIsStored(old(disk), p, temp, data, Name(kind, key));
      Become(Renamed(disk, p, temp, Name(kind, key)));
      return Ok(());
    }

    method ReadDir(p: Peer) returns (names: seq<string>)
      requires p in disk
      ensures NoDup(names) && (forall name :: name in names <==> name in disk[p])
    {
      names := [];
      var left := disk[p].Keys;
      while left != {}
        invariant left <= disk[p].Keys && NoDup(names)
        invariant forall name :: name in names <==> name in disk[p] && name !in left
        decreases left
      {
        var name :| name in left;
        names, left := names + [name], left - {name};
      }
    }

    method ListEntries(p: Peer) returns (out: seq<Entry>)
      requires Valid()
      ensures Lists(disk, p, out)
    {
      if p !in disk {
        return [];
      }
      var names := ReadDir(p);
      out := [];
      for i := 0 to |names|
        invariant NoDup(out)
        invariant forall e :: e in out ==> e == Item(p, e.kind, e.key) && e.key != "" && e.path.name in names[..i]
        invariant forall j, kind, key :: 0 <= j < i && ParseName(names[j]) == Some((kind, key)) ==>
                    Item(p, kind, key) in out
      {
        var parsed := ParseName(names[i]);
        if parsed.Some? {
          NameIsTheItem(names[i], parsed.value.0, parsed.value.1);
          out := out + [Entry(p, parsed.value.0, parsed.value.1, At(p, names[i]))];
        }
      }
      forall kind, key | key != "" && Queued(disk, p, kind, key).Some?
        ensures Item(p, kind, key) in out
      {
        NameIsTheItem(Name(kind, key), kind, key);
        var j :| 0 <= j < |names| && names[j] == Name(kind, key);
      }
    }

    method Read(e: Entry) returns (r: Result<Bytes>)
      ensures e.path.NoPath? ==> r.Err?
      ensures e == Item(e.peer, e.kind, e.key) ==>
                match Queued(disk, e.peer, e.kind, e.key) case Some(data) => r == Ok(data) case None => r.Err?
    {
      match e.path
      case NoPath => return Err("spool: empty entry path");
      case At(dir, name) =>
        if dir in disk && name in disk[dir] {
          return Ok(disk[dir][name]);
        }
        return Err("not found");
    }

    /** Removing an item clears it and nothing else; a second removal changes nothing. If the
        file cannot be removed (`stuck`), that is reported and nothing changes. */
    method Remove(e: Entry, stuck: bool) returns (r: Result<()>)
      requires Valid()
      modifies this
      ensures Valid()
      ensures e.path.NoPath? ==> disk == old(disk) && r.Ok?
      ensures e == Item(e.peer, e.kind, e.key) ==>
                (r.Err? <==> stuck && Queued(old(disk), e.peer, e.kind, e.key).Some?)
      ensures r.Err? ==> disk == old(disk)
      ensures e == Item(e.peer, e.kind, e.key) && r.Ok? ==> disk == AfterRemove(old(disk), e.peer, e.kind, e.key)
      ensures e == Item(e.peer, e.kind, e.key) && r.Ok? ==> OneSet(old(disk), disk, e.peer, e.kind, e.key, None)
      ensures e == Item(e.peer, e.kind, e.key) && Queued(old(disk), e.peer, e.kind, e.key).None? ==>
                SameQueue(old(disk), disk)
    {
      if e.path.NoPath? || e.path.dir !in disk {
        return Ok(());
      }
      if stuck && e.path.name in disk[e.path.dir] {
        return Err("remove");
      }
      if e == Item(e.peer, e.kind, e.key) {
        DropClearsOne(disk, e.peer, e.kind, e.key);
      }
      DropAddsNothing(disk, e.path.dir, e.path.name);
      Become(Pruned(Dropped(disk, e.path.dir, e.path.name), e.path.dir));
      return Ok(());
    }

    /** A peer with anything queued is always among the pending ones. */
    method PendingPeers() returns (out: seq<Peer>)
      ensures NoDup(out) && (forall p :: p in out <==> p in disk)
      ensures forall p, kind, key :: Queued(disk, p, kind, key).Some? ==> p in out
    {
      out := [];
      var left := disk.Keys;
      while left != {}
        invariant left <= disk.Keys && NoDup(out)
        invariant forall p :: p in out <==> p in disk && p !in left
        decreases left
      {
        var p :| p in left;
        out, left := out + [p], left - {p};
      }
    }
  }

  // ---- Histories: when a pending peer has something queued ----

  datatype Op =
    | Put(p: Peer, kind: Kind, key: string, data: Bytes, temp: string, trouble: Trouble)
    | Take(p: Peer, kind: Kind, key: string, stuck: bool)

  function Do(d: Disk, op: Op): Disk {
    match op
    case Put(p, kind, key, data, temp, trouble) => AfterWrite(d, p, kind, key, data, temp, trouble)
    case Take(p, kind, key, stuck) =>
      if stuck && Queued(d, p, kind, key).Some? then d else AfterRemove(d, p, kind, key)
  }

  function After(ops: seq<Op>): Disk {
    if ops == [] then map[] else Do(After(ops[..|ops| - 1]), ops[|ops| - 1])
  }

  /** Temporary names are such, and new when chosen. */
  ghost predicate Fresh(ops: seq<Op>) {
    forall i :: 0 <= i < |ops| && ops[i].Put? ==>
      IsTemp(ops[i].temp) && (ops[i].p in After(ops[..i]) ==> ops[i].temp !in After(ops[..i])[ops[i].p])
  }

  /** The op is a write for p that got past its mkdir and broke off. */
  predicate BreaksOff(op: Op, p: Peer) {
    op.Put? && op.p == p && p != "" && op.key != "" && !op.trouble.NoMkdir? && !op.trouble.Smooth?
  }

  /** The op is a write for p that stopped at its rename, which leaves a file for good. */
  predicate LeavesTemp(op: Op, p: Peer) {
    BreaksOff(op, p) && op.trouble.NoRename?
  }

  predicate EverLeftTemp(ops: seq<Op>, p: Peer) {
    exists i :: 0 <= i < |ops| && LeavesTemp(ops[i], p)
  }

  /** Some item of p was written and not removed since. */
  ghost predicate StillQueued(ops: seq<Op>, p: Peer) {
    exists kind, key :: LastWritten(ops, p, kind, key)
  }

  /** The last op that did anything to the item was a write. */
  function LastWritten(ops: seq<Op>, p: Peer, kind: Kind, key: string): bool {
    ops != [] &&
    var op, before := ops[|ops| - 1], ops[..|ops| - 1];
    if op.p == p && op.kind == kind && op.key == key
    then (if op.Put? then (p != "" && key != "" && op.trouble.Smooth?) || LastWritten(before, p, kind, key)
          else op.stuck && LastWritten(before, p, kind, key))
    else LastWritten(before, p, kind, key)
  }

  /** Of the ops for p, the last that could change its directory broke off: a write that
      broke off, with no write or removal done since. */
  function LastBrokeOff(ops: seq<Op>, p: Peer): bool {
    ops != [] &&
    var op, before := ops[|ops| - 1], ops[..|ops| - 1];
    if BreaksOff(op, p) then true
    else if op.p == p && op.Put? && op.key != "" && p != "" && op.trouble.Smooth? then false
    else if op.p == p && op.Take? && !(op.stuck && LastWritten(before, p, op.kind, op.key)) then false
    else LastBrokeOff(before, p)
  }

  lemma {:induction false} QueuedIsLastWritten(ops: seq<Op>, p: Peer, kind: Kind, key: string)
    requires Fresh(ops)
    ensures Queued(After(ops), p, kind, key).Some? <==> LastWritten(ops, p, kind, key)
  {
    if ops != [] {
      var before, op := ops[..|ops| - 1], ops[|ops| - 1];
      FreshPrefix(ops);
      QueuedIsLastWritten(before, p, kind, key);
      QueuedIsLastWritten(before, op.p, op.kind, op.key);
      DoOnQueue(After(before), op, p, kind, key);
    }
  }

  lemma FreshPrefix(ops: seq<Op>)
    requires Fresh(ops) && ops != []
    ensures Fresh(ops[..|ops| - 1])
    ensures ops[|ops| - 1].Put? ==>
              var op, d := ops[|ops| - 1], After(ops[..|ops| - 1]);
              IsTemp(op.temp) && (op.p in d ==> op.temp !in d[op.p])
  {
    var before := ops[..|ops| - 1];
    forall i | 0 <= i < |before|
      ensures before[i] == ops[i] && before[..i] == ops[..i]
    {
    }
  }

  lemma DoOnQueue(d: Disk, op: Op, p: Peer, kind: Kind, key: string)
    requires op.Put? ==> IsTemp(op.temp)
    ensures var e := Do(d, op);
            Queued(e, p, kind, key).Some? <==>
              if op.p == p && op.kind == kind && op.key == key
              then (if op.Put? then (p != "" && key != "" && op.trouble.Smooth?) || Queued(d, p, kind, key).Some?
                    else op.stuck && Queued(d, p, kind, key).Some?)
              else Queued(d, p, kind, key).Some?
  {
    NamesDiffer(op.kind, op.key, kind, key);
    NamesDiffer(kind, key, kind, key);
    match op {
      case Put(q, l, other, data, temp, trouble) =>
        MakingIsInvisible(d, q);
        assert Queued(d, p, kind, key) == Queued(Made(d, q), p, kind, key);
      case Take(q, l, other, stuck) =>
        if q in d && !(stuck && Queued(d, q, l, other).Some?) {
          DropClearsOne(d, q, l, other);
          assert Queued(AfterRemove(d, q, l, other), p, kind, key) ==
            if p == q && kind == l && key == other then None else Queued(d, p, kind, key);
        }
    }
  }

  /** What is in p's directory: items, temporary files, or nothing. */
  ghost predicate Litter(d: Disk, p: Peer) {
    p in d && exists name :: name in d[p] && IsTemp(name)
  }

  ghost predicate HasItem(d: Disk, p: Peer) {
    exists kind, key :: Queued(d, p, kind, key).Some?
  }

  ghost predicate Bare(d: Disk, p: Peer) {
    p in d && d[p] == map[]
  }

  /** Directories hold only items and temporary files. */
  ghost predicate Tidy(d: Disk) {
    forall p, name :: p in d && name in d[p] ==> IsTemp(name) || exists kind, key :: name == Name(kind, key)
  }

  lemma DoTidy(d: Disk, op: Op)
    requires Tidy(d) && (op.Put? ==> IsTemp(op.temp))
    ensures Tidy(Do(d, op))
  {
    var e := Do(d, op);
    forall p, name | p in e && name in e[p]
      ensures IsTemp(name) || exists kind, key :: name == Name(kind, key)
    {
      if p in d && name in d[p] {
      } else {
        assert op.Put?;
      }
    }
  }

  /** A tidy directory that exists has an item, a temporary file, or nothing at all. */
  lemma ThreeCases(d: Disk, p: Peer)
    requires Tidy(d)
    ensures p in d <==> HasItem(d, p) || Litter(d, p) || Bare(d, p)
  {
    if p in d && d[p] != map[] {
      var name :| name in d[p];
      if !IsTemp(name) {
        var kind, key :| name == Name(kind, key);
        assert Queued(d, p, kind, key).Some?;
      }
    }
  }

  lemma DoLitter(d: Disk, op: Op, p: Peer)
    requires op.Put? ==> IsTemp(op.temp)
    ensures Litter(Do(d, op), p) <==> Litter(d, p) || LeavesTemp(op, p)
  {
    var e := Do(d, op);
    NamesDiffer(op.kind, op.key, op.kind, op.key);
    if Litter(d, p) {
      var name :| name in d[p] && IsTemp(name);
      if op.Take? && op.p == p {
        assert name in Dropped(d, p, Name(op.kind, op.key))[p];
      }
      assert p in e && name in e[p];
    }
    if LeavesTemp(op, p) {
      assert op.temp in e[p];
    }
    if Litter(e, p) {
      var name :| name in e[p] && IsTemp(name);
      if p in d && name in d[p] {
        assert Litter(d, p);
      }
    }
  }

  /** When an op leaves a bare directory: a write that broke off without litter, or nothing
      was done to one. */
  lemma DoBare(d: Disk, op: Op, p: Peer)
    requires Tidy(d) && (op.Put? ==> IsTemp(op.temp) && (op.p in d ==> op.temp !in d[op.p]))
    ensures var e := Do(d, op);
            Bare(e, p) <==>
              if BreaksOff(op, p) then !op.trouble.NoRename? && (p !in d || Bare(d, p))
              else if op.p == p && op.Put? && op.key != "" && p != "" && op.trouble.Smooth? then false
              else if op.p == p && op.Take? && !(op.stuck && Queued(d, p, op.kind, op.key).Some?) then false
              else Bare(d, p)
  {
    var e := Do(d, op);
    match op {
      case Put(q, l, other, data, temp, trouble) =>
        if q == p && trouble.NoRename? && p != "" && other != "" {
          assert temp in e[p];
        } else if q == p && trouble.Smooth? && p != "" && other != "" {
          assert Name(l, other) in e[p];
        }
      case Take(q, l, other, stuck) =>
    }
  }

  /** The three cases by history alone. */
  lemma {:induction false} CasesByHistory(ops: seq<Op>, p: Peer)
    requires Fresh(ops)
    ensures Tidy(After(ops))
    ensures HasItem(After(ops), p) <==> StillQueued(ops, p)
    ensures Litter(After(ops), p) <==> EverLeftTemp(ops, p)
    ensures Bare(After(ops), p) ==> LastBrokeOff(ops, p)
    ensures LastBrokeOff(ops, p) ==> p in After(ops)
  {
    forall kind, key
      ensures Queued(After(ops), p, kind, key).Some? <==> LastWritten(ops, p, kind, key)
    {
      QueuedIsLastWritten(ops, p, kind, key);
    }
    if ops != [] {
      var before, op := ops[..|ops| - 1], ops[|ops| - 1];
      var d := After(before);
      FreshPrefix(ops);
      CasesByHistory(before, p);
      DoTidy(d, op);
      DoLitter(d, op, p);
      DoBare(d, op, p);
      assert ops == before + [op];
      QueuedIsLastWritten(before, p, op.kind, op.key);
      LeftTempSnoc(before, op, p);
    }
  }

  lemma LeftTempSnoc(before: seq<Op>, op: Op, p: Peer)
    ensures EverLeftTemp(before + [op], p) <==> EverLeftTemp(before, p) || LeavesTemp(op, p)
  {
    var ops := before + [op];
    if EverLeftTemp(before, p) {
      var i :| 0 <= i < |before| && LeavesTemp(before[i], p);
      assert ops[i] == before[i];
    }
    if LeavesTemp(op, p) {
      assert ops[|before|] == op;
    }
  }

  /** Over every sequence of writes and removals, `PendingPeers` lists p exactly if something
      is queued for p, or a write for p once stopped at its rename, or the last thing done
      for p was a write that broke off after its mkdir. So everybody pending has something
      queued exactly if the last two happen only to peers with something queued. */
  lemma PendingExactly(ops: seq<Op>, p: Peer)
    requires Fresh(ops)
    ensures p in After(ops) <==> StillQueued(ops, p) || EverLeftTemp(ops, p) || LastBrokeOff(ops, p)
    ensures (p in After(ops) ==> HasItem(After(ops), p)) <==>
              (EverLeftTemp(ops, p) || LastBrokeOff(ops, p) ==> StillQueued(ops, p))
  {
    CasesByHistory(ops, p);
    ThreeCases(After(ops), p);
  }

  /** For every peer, a first write that stops at its rename leaves it pending with nothing
      queued. */
  lemma PendingWithNothingQueued(p: Peer, kind: Kind, key: string, data: Bytes, temp: string)
    requires p != "" && key != "" && IsTemp(temp)
    ensures var ops := [Put(p, kind, key, data, temp, NoRename)];
            Fresh(ops) && p in After(ops) && !HasItem(After(ops), p)
  {
    var op := Put(p, kind, key, data, temp, NoRename);
    var ops := [op];
    assert ops[..0] == [];
    assert LeavesTemp(ops[0], p);
    PendingExactly(ops, p);
    CasesByHistory(ops, p);
    forall l, other
      ensures !LastWritten(ops, p, l, other)
    {
    }
  }
}
