/** The descriptor of the newer variant (src/config.rs): a `Config` holds one
    `Target`, which holds one runner configuration, a closed choice between the
    `bytes` and the `dconf` runner; running a configuration runs its runner. */
module Configuration {
  import opened Common
  import opened Paths
  import opened Fs
  import RunnerBytes
  import Dconf

  datatype RunnerConfig = Bytes(bytes: RunnerBytes.BytesConfig) | Dconf(dconf: Dconf.DconfConfig)
  datatype Target = Target(runner: RunnerConfig)
  datatype Config = Config(target: Target)

  /** The file the runner reads, relative to the current directory. */
  function SourceOf(c: RunnerConfig): Path
  {
    match c
    case Bytes(b) => b.path
    case Dconf(d) => d.path
  }

  /** What running `c` does, given what reading its file gives. */
  function Spec(c: RunnerConfig, read: Result<seq<byte>, Error>, decode: Dconf.Decoder, s: SinkState)
    : (r: (Outcome<Error>, SinkState))
    requires SinkValid(s)
    ensures SinkValid(r.1)
  {
    match c
    case Bytes(b) => RunnerBytes.Spec(b, read, s)
    case Dconf(d) => Dconf.Spec(d, read, decode, s)
  }

  /** `<RunnerConfig as Runner>::yoink(target)`: the configured runner, on the
      same target, with its result passed back unchanged. */
  method Yoink(c: RunnerConfig, h: Host, decode: Dconf.Decoder, target: Sink) returns (r: Outcome<Error>)
    requires target.Valid()
    modifies target
    ensures target.Valid()
    ensures c.Bytes? ==> (r, target.State()) == RunnerBytes.Spec(c.bytes, h.Read(c.bytes.path), old(target.State()))
    ensures c.Dconf? ==> (r, target.State()) == Dconf.Spec(c.dconf, h.Read(c.dconf.path), decode, old(target.State()))
  {
    match c
    case Bytes(b) => r := RunnerBytes.Yoink(b, h, target);
    case Dconf(d) => r := Dconf.Yoink(d, h, decode, target);
  }

  /** A runner that cannot read its file fails, names that file in its error,
      and leaves the target untouched, whichever runner it is. */
  lemma UnreadableSource(c: RunnerConfig, e: Error, decode: Dconf.Decoder, s: SinkState)
    requires SinkValid(s)
    ensures var r := Spec(c, Err(e), decode, s);
      r.0 == Fail(AtPath(SourceOf(c), e)) && r.1 == s
  {
  }

  /** Into a fresh `Vec` a successful run leaves in the buffer exactly what the
      runner produces: the whole file for `bytes`, the rendered lines for `dconf`. */
  lemma IntoBuffer(c: RunnerConfig, bytes: seq<byte>, decode: Dconf.Decoder)
    ensures var r := Spec(c, Ok(bytes), decode, SinkState([], 0, Unlimited));
      && (c.Bytes? ==> r.0 == Pass && r.1.data == bytes)
      && (c.Dconf? && r.0.Pass? ==>
            decode(bytes).Some? && decode(bytes).value.table.Some?
            && r.1.data == Dconf.Render(Dconf.Pairs(c.dconf.exclude, decode(bytes).value.table.value)))
  {
    match c
    case Bytes(b) => RunnerBytes.IntoBuffer(b, bytes);
    case Dconf(d) =>
      var r := Spec(c, Ok(bytes), decode, SinkState([], 0, Unlimited));
      if r.0.Pass? {
        var t := decode(bytes).value.table.value;
        assert t[..Dconf.FirstBad(t)] == t;
      }
  }
}
