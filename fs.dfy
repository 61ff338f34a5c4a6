/** The abstract host both variants of the tool run on: a finite map from
    absolute paths to files, directories and other nodes; the process's current
    directory; the free space left on the device; and the diagnostic lines the
    process prints. Open write handles are `Sink`s, byte streams written from a
    cursor over a buffer; read handles are `Reader`s. */
module Fs {
  import opened Common
  import opened Paths

  /** The error values the `anyhow` errors carry. OS error causes are one value. */
  datatype Error =
    | IoFailure                          // any OS-level failure
    | Malformed                          // the descriptor text does not deserialize
    | StoreFormat                        // the settings store or its hash table cannot be opened
    | BadKey                             // a settings-store key cannot be converted to text
    | AtPath(path: Path, cause: Error)   // "'{path}': {cause}"
    | SomeFailed                         // "one or more paths could not be yoinked"

  datatype Mode = Mode(readable: bool, writable: bool)

  /** One item of a `read_dir` iteration: an entry with its file name, or an error. */
  datatype Entry = Found(name: string) | Unreadable

  /** What `read_dir` gives for a directory: an error, or its entries in order. */
  datatype Listing = Denied | Entries(items: seq<Entry>)

  datatype Node = File(data: seq<byte>, mode: Mode) | Dir(listing: Listing) | Other

  datatype Kind = FileKind | DirKind | OtherKind

  /** Where a diagnostic line comes from. */
  datatype Stage =
    | NoYoinkExtension | DescriptorUnreadable | DescriptorMalformed
    | TargetNotCreated | SourceNotOpened | NoParent | DirNotEntered
    | ResourceUnreadable | SinkWriteFailed
    | SourceUnreadable | ResourceParentMissing | ParentsNotCreated
    | ResourceNotOpened | ResourceWriteFailed
    | DirUnreadable | EntryUnreadable | NotFound | NotFileOrDir | SyncFailed

  /** A line the process prints: a success announcement on stdout, or a problem
      on stderr with the path it names (if it names one). */
  datatype Report = Pulled(path: Path) | Pushed(path: Path) | Problem(stage: Stage, about: Option<Path>)

  /** How many more bytes a device or a writer accepts before it reports an error. */
  datatype Capacity = Unlimited | Limited(n: nat)

  function Accepted(c: Capacity, n: nat): (k: nat)
    ensures k <= n
    ensures c.Limited? ==> k <= c.n
    ensures (k == n) <==> (c.Unlimited? || n <= c.n)
  {
    match c
    case Unlimited => n
    case Limited(m) => if m < n then m else n
  }

  function Spend(c: Capacity, k: nat): Capacity
    requires c.Limited? ==> k <= c.n
  {
    match c
    case Unlimited => Unlimited
    case Limited(m) => Limited(m - k)
  }

  /** All of `n` bytes are accepted. */
  predicate Fits(c: Capacity, n: nat)
  {
    Accepted(c, n) == n
  }

  // ---------------------------------------------------------------------------
  // Writers

  /** The abstract state of a writer: its buffer, the cursor and its room. */
  datatype SinkState = SinkState(data: seq<byte>, pos: nat, room: Capacity)

  predicate SinkValid(s: SinkState)
  {
    s.pos <= |s.data|
  }

  /** `d` with `w` written over it from offset `p`, growing it if `w` runs past its end. */
  function Put(d: seq<byte>, p: nat, w: seq<byte>): seq<byte>
    requires p <= |d|
  {
    d[..p] + w + (if p + |w| < |d| then d[p + |w|..] else [])
  }

  /** The state after `write_all(w)`: the accepted prefix of `w` is written at
      the cursor and the cursor moves past it. */
  function AfterWriteAll(s: SinkState, w: seq<byte>): (r: SinkState)
    requires SinkValid(s)
    ensures SinkValid(r)
  {
    var k := Accepted(s.room, |w|);
    SinkState(Put(s.data, s.pos, w[..k]), s.pos + k, Spend(s.room, k))
  }

  /** The result of one `write(w)` call: the number of bytes accepted, which may
      be fewer than `|w|`, or an error when the writer takes no byte at all. */
  function WriteOnce(s: SinkState, w: seq<byte>): (r: Result<nat, Error>)
    ensures r.Ok? ==> r.value <= |w|
  {
    if s.room == Limited(0) && |w| > 0 then Err(IoFailure) else Ok(Accepted(s.room, |w|))
  }

  function Zeros(n: nat): (z: seq<byte>)
    ensures |z| == n
  {
    seq(n, _ => 0 as byte)
  }

  /** `set_len(n)` on a writer: cut the buffer to `n` bytes, or extend it with
      zeros; the cursor and the room stay. Extending writes no data, so it takes
      no room (no caller extends a file). */
  function SetLenState(s: SinkState, n: nat): (r: SinkState)
    requires SinkValid(s) && s.pos <= n
    ensures SinkValid(r) && |r.data| == n && r.pos == s.pos && r.room == s.room
    ensures forall i :: 0 <= i < n ==> r.data[i] == if i < |s.data| then s.data[i] else 0 as byte
  {
    if n <= |s.data| then SinkState(s.data[..n], s.pos, s.room)
    else SinkState(s.data + Zeros(n - |s.data|), s.pos, s.room)
  }

  /** The room a write handle on a file of `size` bytes starts with: the free
      space on the device plus the file's own bytes, which writing from offset
      0 overwrites without taking new space. */
  function RoomFor(free: Capacity, size: nat): (c: Capacity)
    ensures c.Unlimited? <==> free.Unlimited?
  {
    match free
    case Unlimited => Unlimited
    case Limited(n) => Limited(n + size)
  }

  /** The free space once a file of `size` bytes has become `len` bytes long:
      growth takes space and shrinking gives it back. */
  function Settle(free: Capacity, size: nat, len: nat): (c: Capacity)
    requires Fits(RoomFor(free, size), len)
    ensures c.Unlimited? <==> free.Unlimited?
    ensures c.Limited? ==> c.n + len == free.n + size
  {
    match free
    case Unlimited => Unlimited
    case Limited(n) => Limited(n + size - len)
  }

  /** A handle whose whole budget is `total` and which has only been written
      from offset 0 onwards: the cursor and the room add up to the budget, and
      the buffer is no longer than the budget. */
  predicate Budgeted(s: SinkState, total: Capacity)
  {
    match total
    case Unlimited => s.room.Unlimited?
    case Limited(t) => s.room.Limited? && s.pos + s.room.n == t && |s.data| <= t
  }

  /** A write keeps a handle within its budget. */
  lemma BudgetedWrite(s: SinkState, total: Capacity, w: seq<byte>)
    requires SinkValid(s) && Budgeted(s, total)
    ensures Budgeted(AfterWriteAll(s, w), total) && Fits(total, |AfterWriteAll(s, w).data|)
  {
  }

  /** Writing `a` and then `b` is writing `a + b` at once while `a` fits. */
  lemma AfterWriteAllAppend(s: SinkState, a: seq<byte>, b: seq<byte>)
    requires SinkValid(s) && Fits(s.room, |a|)
    ensures AfterWriteAll(AfterWriteAll(s, a), b) == AfterWriteAll(s, a + b)
  {
    var s1 := AfterWriteAll(s, a);
    var k := Accepted(s1.room, |b|);
    assert Accepted(s.room, |a + b|) == |a| + k;
    assert (a + b)[..|a| + k] == a + b[..k];
    assert a[..|a|] == a;
    PutPut(s.data, s.pos, a, b[..k]);
  }

  /** Once a write runs out of room nothing more is written: a write of `a`
      that does not fit leaves the same state as writing `a + b`. */
  lemma AfterWriteAllStops(s: SinkState, a: seq<byte>, b: seq<byte>)
    requires SinkValid(s) && !Fits(s.room, |a|)
    ensures AfterWriteAll(s, a) == AfterWriteAll(s, a + b)
  {
    assert (a + b)[..Accepted(s.room, |a + b|)] == a[..Accepted(s.room, |a|)];
  }

  lemma PutPut(d: seq<byte>, p: nat, a: seq<byte>, b: seq<byte>)
    requires p <= |d|
    ensures Put(Put(d, p, a), p + |a|, b) == Put(d, p, a + b)
  {
    var d1 := Put(d, p, a);
    assert d1[..p + |a|] == d[..p] + a;
    if p + |a| + |b| < |d| {
      assert d1[p + |a| + |b|..] == d[p + |a| + |b|..];
    }
  }

  /** The key invariant of overwrite-then-truncate: whatever the buffer held
      before, writing `w` from offset 0 and cutting to `|w|` leaves exactly `w`. */
  lemma OverwriteThenTruncate(old_data: seq<byte>, room: Capacity, w: seq<byte>)
    requires Fits(room, |w|)
    ensures var s := AfterWriteAll(SinkState(old_data, 0, room), w);
      SetLenState(s, |w|).data == w
  {
    var s := AfterWriteAll(SinkState(old_data, 0, room), w);
    assert w[..|w|] == w;
    assert s.data[..|w|] == w;
  }

  /** A fresh in-memory buffer (a `Vec`) receives exactly what is written. */
  lemma BufferReceivesAll(w: seq<byte>)
    ensures AfterWriteAll(SinkState([], 0, Unlimited), w).data == w
    ensures WriteOnce(SinkState([], 0, Unlimited), w) == Ok(|w|)
  {
    assert w[..|w|] == w;
  }

  /** An open writer. For a file handle the buffer starts as the file's content
      (opened without truncation) and is stored back with `Host.Close`; for a
      `Vec` it starts empty with unlimited room. */
  class Sink {
    var data: seq<byte>
    var pos: nat
    var room: Capacity

    ghost predicate Valid()
      reads this
    {
      pos <= |data|
    }

    function State(): SinkState
      reads this
    {
      SinkState(data, pos, room)
    }

    /** `Vec::new()`. */
    constructor Buffer()
      ensures Valid() && State() == SinkState([], 0, Unlimited)
    {
      data, pos, room := [], 0, Unlimited;
    }

    /** A handle on a file whose content is `content`, cursor at offset 0. */
    constructor Handle(content: seq<byte>, room: Capacity)
      ensures Valid() && State() == SinkState(content, 0, room)
    {
      data, pos, this.room := content, 0, room;
    }

    /** `Write::write`: one call, which may accept only a prefix of `w`. */
    method Write(w: seq<byte>) returns (r: Result<nat, Error>)
      requires Valid()
      modifies this
      ensures Valid()
      ensures r == WriteOnce(old(State()), w)
      ensures State() == if r.Ok? then AfterWriteAll(old(State()), w) else old(State())
    {
      if room == Limited(0) && |w| > 0 {
        return Err(IoFailure);
      }
      var k := Accepted(room, |w|);
      data, pos, room := Put(data, pos, w[..k]), pos + k, Spend(room, k);
      r := Ok(k);
    }

    /** `Write::write_all`: writes until all of `w` is taken or the writer fails. */
    method WriteAll(w: seq<byte>) returns (r: Outcome<Error>)
      requires Valid()
      modifies this
      ensures Valid()
      ensures State() == AfterWriteAll(old(State()), w)
      ensures r == if Fits(old(room), |w|) then Pass else Fail(IoFailure)
    {
      var k := Accepted(room, |w|);
      data, pos, room := Put(data, pos, w[..k]), pos + k, Spend(room, k);
      r := if k == |w| then Pass else Fail(IoFailure);
    }

    /** `File::set_len`; the callers only ever cut at the cursor. */
    method SetLen(n: nat)
      requires Valid() && pos <= n
      modifies this
      ensures Valid()
      ensures State() == SetLenState(old(State()), n)
    {
      var next := SetLenState(State(), n);
      data, pos, room := next.data, next.pos, next.room;
    }
  }

  /** An open read handle: what reading it to the end gives. */
  datatype Reader = Reader(content: Result<seq<byte>, Error>)

  // ---------------------------------------------------------------------------
  // The file tree

  function KindAt(nodes: map<Path, Node>, at: Path): Option<Kind>
  {
    if at !in nodes then None
    else match nodes[at]
      case File(_, _) => Some(FileKind)
      case Dir(_) => Some(DirKind)
      case Other => Some(OtherKind)
  }

  /** `exists` / `is_file` / `is_dir` of `p` from the current directory `cwd`.
      The empty path names nothing: `stat("")` fails. */
  function KindFrom(nodes: map<Path, Node>, cwd: Path, p: Path): Option<Kind>
  {
    if p == Empty then None else KindAt(nodes, Resolve(cwd, p))
  }

  /** `fs::read`: the content of a readable file, an error otherwise. */
  function ReadAt(nodes: map<Path, Node>, at: Path): Result<seq<byte>, Error>
  {
    if at in nodes && nodes[at].File? && nodes[at].mode.readable then Ok(nodes[at].data)
    else Err(IoFailure)
  }

  /** `File::options().read(true).open`: a readable file, or a directory
      (which opens, but whose reads fail). */
  function OpenReadAt(nodes: map<Path, Node>, at: Path): Result<Reader, Error>
  {
    if at in nodes && nodes[at].File? && nodes[at].mode.readable then Ok(Reader(Ok(nodes[at].data)))
    else if at in nodes && nodes[at].Dir? then Ok(Reader(Err(IoFailure)))
    else Err(IoFailure)
  }

  /** `File::options().write(true).create(true).open` succeeds: a writable file,
      or nothing yet inside an existing directory. */
  predicate CanOpenWrite(nodes: map<Path, Node>, at: Path)
  {
    if at in nodes then nodes[at].File? && nodes[at].mode.writable
    else Parent(at).Some? && Parent(at).value in nodes && nodes[Parent(at).value].Dir?
  }

  /** The tree after opening `at` with `create(true)`: a missing file is created empty. */
  function Opened(nodes: map<Path, Node>, at: Path): map<Path, Node>
  {
    if at in nodes then nodes else nodes[at := File([], Mode(true, true))]
  }

  /** The prefixes of an absolute path, from the root down to the path itself. */
  function Prefixes(at: Path): set<Path>
  {
    set i | 0 <= i <= |at.names| :: Path(true, at.names[..i])
  }

  /** `fs::create_dir_all` can succeed: no existing prefix is anything but a directory. */
  predicate CanCreateDirs(nodes: map<Path, Node>, at: Path)
  {
    forall q :: q in Prefixes(at) && q in nodes ==> nodes[q].Dir?
  }

  /** The tree with every missing prefix of `at` created as an empty directory. */
  function WithDirs(nodes: map<Path, Node>, at: Path): (r: map<Path, Node>)
    ensures forall q :: q in nodes ==> q in r && r[q] == nodes[q]
    ensures forall q :: q in Prefixes(at) ==> q in r
  {
    map q | q in nodes.Keys + Prefixes(at) :: if q in nodes then nodes[q] else Dir(Entries([]))
  }

  /** `fs::create_dir_all(p)` can succeed from the current directory `cwd`
      (the empty path needs nothing created). */
  predicate DirsCreatable(nodes: map<Path, Node>, cwd: Path, p: Path)
  {
    p == Empty || CanCreateDirs(nodes, Resolve(cwd, p))
  }

  /** The tree after a successful `fs::create_dir_all(p)`. */
  function MadeDirs(nodes: map<Path, Node>, cwd: Path, p: Path): map<Path, Node>
  {
    if p == Empty then nodes else WithDirs(nodes, Resolve(cwd, p))
  }

  /** `set_current_dir(p)` can succeed: `p` is not the empty path (chdir("")
      fails) and names an existing directory. */
  predicate CanEnter(nodes: map<Path, Node>, cwd: Path, p: Path)
  {
    p != Empty && Resolve(cwd, p) in nodes && nodes[Resolve(cwd, p)].Dir?
  }

  /** What `fs::read_dir(dir)` gives from the current directory `cwd`: the
      entries of a directory, an error for anything else, the empty path
      included. */
  function ListingOf(nodes: map<Path, Node>, cwd: Path, dir: Path): Listing
  {
    var at := Resolve(cwd, dir);
    if dir != Empty && at in nodes && nodes[at].Dir? then nodes[at].listing else Denied
  }

  /** Everything a `Host` holds, as a value: the tree, the current directory,
      the free space and the printed lines. */
  datatype HostState = HostState(nodes: map<Path, Node>, cwd: Path, free: Capacity, log: seq<Report>)

  /** The state after one more printed line. */
  function Noted(st: HostState, r: Report): HostState
  {
    st.(log := st.log + [r])
  }

  /** The process: its file tree (keyed by absolute paths), its current
      directory, the free space left on the device and what it has printed. */
  class Host {
    var nodes: map<Path, Node>
    var cwd: Path
    var free: Capacity
    var log: seq<Report>

    ghost predicate Valid()
      reads this
    {
      cwd.absolute && cwd in nodes && nodes[cwd].Dir?
    }

    function State(): HostState
      reads this
    {
      HostState(nodes, cwd, free, log)
    }

    function Abs(p: Path): Path
      reads this
    {
      Resolve(cwd, p)
    }

    /** `exists` / `is_file` / `is_dir` of a path relative to the current directory. */
    function KindOf(p: Path): Option<Kind>
      reads this
    {
      KindFrom(nodes, cwd, p)
    }

    predicate IsFile(p: Path)
      reads this
    {
      KindOf(p) == Some(FileKind)
    }

    predicate IsDir(p: Path)
      reads this
    {
      KindOf(p) == Some(DirKind)
    }

    function Read(p: Path): Result<seq<byte>, Error>
      reads this
    {
      ReadAt(nodes, Abs(p))
    }

    function OpenRead(p: Path): Result<Reader, Error>
      reads this
    {
      OpenReadAt(nodes, Abs(p))
    }

    /** `println!` / `eprintln!`. */
    method Say(r: Report)
      modifies this`log
      ensures log == old(log) + [r]
    {
      log := log + [r];
    }

    /** `std::env::set_current_dir`. */
    method SetCurrentDir(p: Path) returns (r: Outcome<Error>)
      requires Valid()
      modifies this`cwd
      ensures Valid()
      ensures r.Pass? <==> CanEnter(nodes, old(cwd), p)
      ensures cwd == if r.Pass? then Resolve(old(cwd), p) else old(cwd)
    {
      var at := Abs(p);
      if p != Empty && at in nodes && nodes[at].Dir? {
        cwd := at;
        r := Pass;
      } else {
        r := Fail(IoFailure);
      }
    }

    /** `File::options().write(true).create(true).open(p)`: no truncation; the
        handle's buffer is the file's current content. */
    method OpenWrite(p: Path) returns (r: Result<Sink, Error>)
      requires Valid()
      modifies this`nodes
      ensures Valid()
      ensures r.Ok? <==> CanOpenWrite(old(nodes), Abs(p))
      ensures nodes == if r.Ok? then Opened(old(nodes), Abs(p)) else old(nodes)
      ensures r.Ok? ==>
        && fresh(r.value) && r.value.Valid() && Abs(p) in nodes && nodes[Abs(p)].File?
        && r.value.State() == SinkState(nodes[Abs(p)].data, 0, RoomFor(free, |nodes[Abs(p)].data|))
    {
      var at := Abs(p);
      if !CanOpenWrite(nodes, at) {
        return Err(IoFailure);
      }
      nodes := Opened(nodes, at);
      var s := new Sink.Handle(nodes[at].data, RoomFor(free, |nodes[at].data|));
      r := Ok(s);
    }

    /** Dropping a write handle on the file at `at`: the file now holds the
        handle's buffer, and the device's free space follows the file's size. */
    method Close(at: Path, s: Sink)
      requires Valid() && at in nodes && nodes[at].File?
      requires Fits(RoomFor(free, |nodes[at].data|), |s.data|)
      modifies this`nodes, this`free
      ensures Valid()
      ensures nodes == old(nodes)[at := File(s.data, old(nodes)[at].mode)]
      ensures free == Settle(old(free), |old(nodes)[at].data|, |s.data|)
    {
      free := Settle(free, |nodes[at].data|, |s.data|);
      nodes := nodes[at := File(s.data, nodes[at].mode)];
    }

    /** `fs::create_dir_all(p)`; the empty path needs nothing created. */
    method CreateDirAll(p: Path) returns (r: Outcome<Error>)
      requires Valid()
      modifies this`nodes
      ensures Valid()
      ensures r.Pass? <==> DirsCreatable(old(nodes), cwd, p)
      ensures nodes == if r.Pass? then MadeDirs(old(nodes), cwd, p) else old(nodes)
    {
      if p == Empty {
        return Pass;
      }
      var at := Abs(p);
      if !CanCreateDirs(nodes, at) {
        return Fail(IoFailure);
      }
      nodes := WithDirs(nodes, at);
      r := Pass;
    }

    /** `fs::write(p, bytes)`: create or truncate the file, then write all of
        `bytes`. The old content's space is given back first. */
    method WriteFile(p: Path, bytes: seq<byte>) returns (r: Outcome<Error>)
      requires Valid()
      modifies this`nodes, this`free
      ensures Valid()
      ensures !CanOpenWrite(old(nodes), Abs(p)) ==> r == Fail(IoFailure) && nodes == old(nodes) && free == old(free)
      ensures CanOpenWrite(old(nodes), Abs(p)) ==>
        var tree := Opened(old(nodes), Abs(p));
        var room := RoomFor(old(free), |tree[Abs(p)].data|);
        var k := Accepted(room, |bytes|);
        && r == (if Fits(room, |bytes|) then Pass else Fail(IoFailure))
        && nodes == tree[Abs(p) := File(bytes[..k], tree[Abs(p)].mode)]
        && free == Settle(old(free), |tree[Abs(p)].data|, k)
    {
      var at := Abs(p);
      var handle := OpenWrite(p);
      if handle.Err? {
        return Fail(IoFailure);
      }
      var s := handle.value;
      ghost var total := s.room;
      s.SetLen(0);
      assert s.data == [];
      r := s.WriteAll(bytes);
      assert s.data == bytes[..Accepted(total, |bytes|)];
      Close(at, s);
    }
  }
}
