/** The `bytes` runner of the newer variant (src/runner/bytes.rs): read the file
    at the configured path (relative to the current directory) completely, then
    hand the bytes to the target in one `write` call, whose count is dropped. */
module RunnerBytes {
  import opened Common
  import opened Paths
  import opened Fs

  datatype BytesConfig = BytesConfig(path: Path)

  /** What `BytesConfig::yoink` does, given what reading the file gives and the
      state of the target: its result and the target's new state. */
  function Spec(cfg: BytesConfig, read: Result<seq<byte>, Error>, s: SinkState): (r: (Outcome<Error>, SinkState))
    requires SinkValid(s)
    ensures SinkValid(r.1)
    // an unreadable file: an error naming the path, and nothing written
    ensures read.Err? ==> r == (Fail(AtPath(cfg.path, read.error)), s)
    // a write error is passed on, and the target is as it was
    ensures read.Ok? && WriteOnce(s, read.value).Err? ==> r == (Fail(WriteOnce(s, read.value).error), s)
    // otherwise the call succeeds and the target received a prefix of the file, in order
    ensures read.Ok? && WriteOnce(s, read.value).Ok? ==>
      && r.0 == Pass
      && s.pos <= r.1.pos <= s.pos + |read.value|
      && r.1.data[s.pos..r.1.pos] == read.value[..r.1.pos - s.pos]
  {
    match read
    case Err(e) => (Fail(AtPath(cfg.path, e)), s)
    case Ok(bytes) =>
      match WriteOnce(s, bytes)
      case Err(e) => (Fail(e), s)
      case Ok(_) => (Pass, AfterWriteAll(s, bytes))
  }

  /** `BytesConfig::yoink(target)`. */
  method Yoink(cfg: BytesConfig, h: Host, target: Sink) returns (r: Outcome<Error>)
    requires target.Valid()
    modifies target
    ensures target.Valid()
    ensures (r, target.State()) == Spec(cfg, h.Read(cfg.path), old(target.State()))
  {
    var read := h.Read(cfg.path);
    if read.Err? {
      return Fail(AtPath(cfg.path, read.error));
    }
    var written := target.Write(read.value);
    if written.Err? {
      return Fail(written.error);
    }
    r := Pass;
  }

  /** Into a fresh `Vec`, which accepts everything, the runner succeeds on any
      readable file and the buffer ends up holding exactly the file's bytes. */
  lemma IntoBuffer(cfg: BytesConfig, bytes: seq<byte>)
    ensures var r := Spec(cfg, Ok(bytes), SinkState([], 0, Unlimited));
      r.0 == Pass && r.1.data == bytes
  {
    BufferReceivesAll(bytes);
  }

  /** A target with no room left makes a non-empty file fail the call; a
      target with room for part of the file still succeeds, with only that part
      written. */
  lemma PartialWrite(cfg: BytesConfig, bytes: seq<byte>, s: SinkState)
    requires SinkValid(s) && s.room.Limited?
    ensures var r := Spec(cfg, Ok(bytes), s);
      && (s.room.n == 0 && bytes != [] ==> r.0.Fail? && r.1 == s)
      && (0 < s.room.n < |bytes| ==> r.0 == Pass && r.1.pos == s.pos + s.room.n && r.1.room == Limited(0))
  {
  }
}
