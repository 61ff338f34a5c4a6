# yoink, modelled in Dafny

yoink keeps a local file in sync with a resource named by a `.yoink`
descriptor that sits beside it. The descriptor `notes.txt.yoink` names a
resource, for example a file elsewhere or a dconf settings database. Its
associated file, `notes.txt`, is the descriptor path with the extension
removed. Paths inside the descriptor are relative to the descriptor's own
directory, so the tool changes the process's current directory to that
directory before it touches the resource.

The repository holds two variants of the tool, and both are modelled:

- **The older pull/push variant** (`src/yoink.rs`, `src/style/bytes.rs`).
  `pull` copies the resource into the associated file: the file is opened
  without truncation, written from offset 0, then cut to the new length.
  `push` copies the associated file back into the resource, creating the
  resource's parent directories. Given a directory, the tool walks it and
  optionally its subdirectories. The current directory is changed and never
  restored.
- **The newer runner variant** (`src/runner.rs`, `src/config.rs`,
  `src/runner/bytes.rs`, `src/runner/dconf.rs`). A descriptor names a
  *runner*, `bytes` or `dconf`. The runner writes into an in-memory buffer,
  and the buffer then overwrites the associated file. A directory walk carries
  on past failures and fails at the end if any entry failed. The current
  directory is restored, but only when the runner succeeded.

All of it runs on one abstract host, module `Fs`. The host keeps:

- a map from absolute paths to nodes: a file with its bytes and its
  read/write flags, a directory with the result of listing it, or another node;
- the current directory;
- the free space left on the device, which decides when a write runs short;
- the lines the process prints.

An open write handle is a `Sink`, a buffer written from a cursor. It starts
as the file's content and is stored back when the handle is closed. Its room
is the free space plus the file's own size, because overwriting existing
bytes takes no new space. Closing it moves the free space by exactly the
change in the file's size, so a file that shrinks gives space back. A `Vec`
is a `Sink` with unlimited room.

Each step-by-step operation is a method whose contract gives its result and
its whole new state. For the operations of the tool that state is a
specification function of the old state: `PullFileSpec`, `PushFileSpec`,
`PushSpec`, `WalkSpec` and `Act` in the older variant; `Dconf.Spec`,
`RunnerBytes.Spec`, `YoinkFileSpec` and `DirSpec` in the newer one. The
properties the code promises are lemmas about those functions. A directory
walk is also described entry by entry: `Trace` lists the host state each
entry starts from, and `WalkByEntries` proves each step of the walk is that
entry's `VisitSpec` or `EntrySpec` applied to it.

Modules:

- `Common`: bytes, `Option`, `Result`, `Outcome`.
- `Paths`: path components, the extension rule, `with_extension("")`,
  `parent`, `join`.
- `Fs`: the host, writers and file-tree operations.
- `StyleBytes` and `Yoink`: the older variant.
- `RunnerBytes`, `Dconf`, `Configuration` and `Runner`: the newer variant.

The two variants do not agree on the descriptor type. `src/runner.rs:30-31`
matches on `config.target.style` and calls a free `bytes::yoink`.
`src/config.rs:13-29` names the field `runner` and dispatches through
`RunnerConfig`. The model follows `src/config.rs`: `Runner.YoinkFile`
runs the descriptor's `RunnerConfig`. The `Runner` trait is not part of this
model. Its method is taken to be `yoink(target) -> Result<()>`.

The code restores the working directory only on the success path
(`src/runner.rs:26-35`), and the older variant never restores it. The model
follows the code. `Runner.RunnerFailureStaysInParent` shows that a failing
runner leaves the process in the descriptor's directory. `Runner.WalkPassRestores`
shows that a whole directory walk that succeeds ends where it started.

## Model

| member | source | states |
|---|---|---|
| Paths.ExtensionIff | src/yoink.rs:168 | a path has extension `ext` exactly when its file name is a non-empty stem, a dot and `ext`, with no dot in `ext` and the name not `..` |
| Paths.AssociatedFileOf | src/yoink.rs:26 | for a descriptor, the associated file has the same parent and depth; its name is non-empty and followed by `.yoink` gives the descriptor's name; it differs from the descriptor |
| Fs.Sink.Write | src/runner/bytes.rs:24 | one `write` accepts a prefix of the bytes, or fails with nothing written when the writer has no room |
| Fs.Sink.WriteAll | src/style/bytes.rs:18 | `write_all` writes what fits at the cursor; it succeeds exactly when all of it fits |
| Fs.Sink.SetLen | src/style/bytes.rs:71 | `set_len(n)` cuts the buffer to `n` bytes, or extends it with zeros without taking room; no caller extends |
| Fs.WriteOnce | src/runner/bytes.rs:24 | the count one `write` returns never exceeds the number of bytes offered |
| Fs.SetLenState | src/yoink.rs:51 | `set_len(n)` leaves exactly `n` bytes: the old ones up to `n`, then zeros; cursor and room stay |
| Fs.AfterWriteAllAppend | src/runner/dconf.rs:43 | two writes in a row, the first one complete, equal one write of both |
| Fs.AfterWriteAllStops | src/runner/dconf.rs:43 | once a write runs short, writing more changes nothing |
| Fs.OverwriteThenTruncate | src/style/bytes.rs:66-76 | writing `w` from offset 0 over any old content and then cutting at its length leaves exactly `w`, with no stale tail |
| Fs.BufferReceivesAll | src/runner.rs:29 | a fresh `Vec` receives exactly the bytes written, and one `write` takes all of them |
| Fs.Host.SetCurrentDir | src/yoink.rs:198 | `set_current_dir` succeeds exactly for a non-empty path naming a directory, and only then moves the current directory |
| Fs.Host.OpenWrite | src/yoink.rs:27 | opening for writing with `create(true)` succeeds on a writable file or a missing file in an existing directory; it creates a missing file empty and never truncates; the handle may write the free space plus the file's own size |
| Fs.Host.Close | src/style/bytes.rs:55-77 | dropping a write handle leaves the file holding the handle's buffer, the free space settled by the change in size, and nothing else changed |
| Fs.Host.CreateDirAll | src/style/bytes.rs:47 | `create_dir_all` succeeds exactly when no prefix is a non-directory, and then creates the missing prefixes |
| Fs.Host.WriteFile | src/runner.rs:39 | `fs::write` fails and changes nothing when the file cannot be opened; otherwise the file holds what fit of the bytes in the free space plus its old size, and it succeeds exactly when all of them fit |
| StyleBytes.PullSpec | src/style/bytes.rs:15-30 | pull returns `Some(n)` exactly when the resource was read and all of it was written; then `n` is its length and the sink holds its bytes in order. An unreadable resource writes nothing. A failed write gives `None`. Either way the writer took what fit of the resource |
| StyleBytes.Pull | src/style/bytes.rs:15-30 | `Bytes::pull` returns, writes and prints what `PullSpec` says |
| StyleBytes.Push | src/style/bytes.rs:32-77 | `Bytes::push` reads the source, creates the parents, opens, writes and cuts, stopping at the first failure, as `PushSpec` says |
| StyleBytes.PushSucceeded | src/style/bytes.rs:47-76 | a push that prints nothing leaves the resource a file holding exactly the source's bytes, even if it was longer before, with every parent directory in place |
| StyleBytes.PushStopsEarly | src/style/bytes.rs:32-64 | an unreadable source, a missing parent or failed `create_dir_all` leave tree and free space untouched; a failed open leaves only the created directories |
| Yoink.LoadConfig | src/yoink.rs:166-187 | a path without the `yoink` extension fails before any read; otherwise the load succeeds exactly when the file reads and parses |
| Yoink.SetCurrentDirRelativeToFile | src/yoink.rs:189-207 | on `true` the current directory is the descriptor's parent; on `false` it is unchanged and the reason is printed |
| Yoink.PullFile | src/yoink.rs:21-59 | `pull_file` changes the tree, current directory, free space and output exactly as `PullFileSpec` says |
| Yoink.PullFileLoadFails | src/yoink.rs:21-27 | when the descriptor does not load, nothing is opened or created and the current directory stays |
| Yoink.PullFileExact | src/yoink.rs:40-58 | "Pulled" is printed exactly when the descriptor loads, the associated file opens, its directory can be entered, the resource reads and all of it fits. The associated file then holds exactly the resource's bytes, whatever it held before, and the current directory is the descriptor's parent |
| Yoink.PullFileNoLength | src/yoink.rs:44-48 | when the backend returns no length, "Pulled" is not printed and nothing is cut. An unreadable resource leaves the associated file as opened, possibly just created. A short write has already overwritten all of the old content, because a handle's room is the free space plus the file's size: the file then holds exactly the first free-plus-old-size bytes of the resource |
| Yoink.PullOnFullDevice | src/yoink.rs:40-58 | on a full device, a pull whose resource is no longer than the associated file still prints "Pulled", and the bytes the file gave up are free again |
| Yoink.PullSpaceBalance | src/yoink.rs:27-58 | once the associated file can be opened, a pull keeps free space plus the file's length as it was when opened, whatever it wrote or cut |
| Yoink.PushFile | src/yoink.rs:61-88 | `push_file` changes the host exactly as `PushFileSpec` says |
| Yoink.PushFileSourceRule | src/yoink.rs:66-87 | an associated file that cannot be opened stops the push before anything changes; once the directory is entered, "Pushed" is printed whether or not the push worked |
| Yoink.PullThenPush | src/yoink.rs:21-88 | a pull and then a push from the same starting directory leave the resource holding the pulled bytes, when the push reports no problem |
| Yoink.IterateYoinkfiles | src/yoink.rs:98-128 | the walk changes the tree, current directory, free space and output exactly as `WalkSpec` says: an unlistable directory only prints; each entry is visited in order by `VisitSpec` |
| Yoink.WalkByEntries | src/yoink.rs:107-127 | each entry of a listable directory is visited in order, from the host state the earlier entries left, past unreadable entries and failed actions; the last state is the walk's result |
| Yoink.QuietWalk | src/yoink.rs:115-121 | a walk that does not recurse, of a directory with no `.yoink` entry, changes neither tree, current directory nor free space, and prints one line per unreadable entry |
| Yoink.Dispatch | src/yoink.rs:130-147 | a missing path runs no action; a file runs only the file action, a directory only the directory action, anything else neither |
| Yoink.EmptyPathMissing | src/yoink.rs:130-134 | the empty path does not exist and cannot be listed, so `pull("")`/`push("")` dispatch to the "does not exist" branch |
| Yoink.Run | src/yoink.rs:11-19 | for a missing or odd path, `pull`/`push` only print. On a file they act as `pull_file`/`push_file` (`Act`); on a directory the host ends as `WalkSpec` says |
| RunnerBytes.Spec | src/runner/bytes.rs:14-27 | an unreadable file gives an error naming the path and writes nothing; a write error is passed on; otherwise the target gets a prefix of the file's bytes |
| RunnerBytes.Yoink | src/runner/bytes.rs:14-27 | `BytesConfig::yoink` reads the whole file, then makes one `write`, as `Spec` says |
| RunnerBytes.IntoBuffer | src/runner/bytes.rs:24 | into a `Vec` the call succeeds and the buffer holds exactly the file's bytes |
| RunnerBytes.PartialWrite | src/runner/bytes.rs:24 | a target with no room fails a non-empty file; a target with some room still succeeds with only part of it written |
| Dconf.FirstBad | src/runner/dconf.rs:29 | the position of the first key that does not convert: every earlier key converts |
| Dconf.Spec | src/runner/dconf.rs:21-52 | a database or table that cannot be opened fails with the quoted path before any write. Otherwise the target gets the lines of the keys before the first bad key, in order. Success means every key converted and every line was written; a bad key fails with the path after the earlier lines |
| Dconf.Yoink | src/runner/dconf.rs:21-47 | `DconfConfig::yoink` returns and writes what `Spec` says |
| Dconf.WriteLines | src/runner/dconf.rs:27-44 | the key loop writes the lines of the kept pairs before the first bad key; it stops at a bad key or a short write |
| Dconf.PairsIff | src/runner/dconf.rs:32-43 | a `key = value` pair is written exactly when some entry has that key and value and no excluded prefix starts the key |
| Dconf.NoExcludedKeyWritten | src/runner/dconf.rs:32-34 | no written key starts with an excluded prefix |
| Dconf.NoExcludesKeepsEvery | src/runner/dconf.rs:16-17 | with the default empty `exclude`, every key whose value can be fetched is written |
| Dconf.EmptyPrefixDropsAll | src/runner/dconf.rs:32 | an empty excluded prefix drops every line |
| Dconf.MoreExcludesFilter | src/runner/dconf.rs:32 | adding prefixes only removes lines: the old output without the pairs the new prefixes match |
| Dconf.LookupFailureSkipped | src/runner/dconf.rs:38-40 | a key whose value lookup fails changes nothing in the output |
| Dconf.PairsAppend | src/runner/dconf.rs:27 | the pairs of a table split in two are the pairs of each part, in order |
| Dconf.RenderAppend | src/runner/dconf.rs:43 | the text of two lists of lines is the text of each, one after the other |
| Dconf.ExcludedConcat | src/runner/dconf.rs:32 | a key is excluded by two prefix lists together exactly when either list excludes it |
| Configuration.Yoink | src/config.rs:23-29 | `Bytes` runs `BytesConfig::yoink` and `Dconf` runs `DconfConfig::yoink`, on the same target, with the result passed back unchanged |
| Configuration.UnreadableSource | src/config.rs:25-27 | whichever runner is chosen, an unreadable file fails with its path and leaves the target untouched |
| Configuration.IntoBuffer | src/config.rs:25-27 | into a `Vec`, `bytes` yields the whole file and a successful `dconf` yields exactly the rendered lines of its table |
| Runner.YoinkFile | src/runner.rs:9-42 | `yoink_file` changes the result, tree, current directory and free space exactly as `YoinkFileSpec` says |
| Runner.SuccessRestores | src/runner.rs:22-39 | on success the current directory is back where it was; the associated file holds exactly the runner's output; every other node is unchanged |
| Runner.RunnerFailureStaysInParent | src/runner.rs:26-35 | a failing runner leaves the tree untouched and the current directory at the descriptor's parent, which differs from the start for a relative descriptor path without `.`/`..` components |
| Runner.EarlyFailureUntouched | src/runner.rs:29-39 | the tree changes only if every step before `fs::write` succeeded, with the current directory restored |
| Runner.BytesCopies | src/runner.rs:29-39 | with the `bytes` runner, a successful sync leaves the associated file a copy of the resource |
| Runner.YoinkDir | src/runner.rs:44-92 | called on a directory, as the source asserts, `yoink_dir` returns and changes the tree, current directory, free space and output exactly as `DirSpec` says: an unlistable directory fails at once with nothing changed |
| Runner.WalkByEntries | src/runner.rs:52-91 | each entry of a listable directory is handled in order, from the host state the earlier entries left, whatever failed before it; the call succeeds exactly when no entry failed, and otherwise fails with "one or more paths could not be yoinked" |
| Runner.UnreadableEntryFails | src/runner.rs:54-60 | an entry that cannot be read fails the whole walk |
| Runner.FailureSticks | src/runner.rs:87-89 | once an entry has failed, the walk fails whatever the later entries do |
| Runner.WalkPassRestores | src/runner.rs:26-35 | a walk that succeeds, at any depth, ends in the directory it started from and prints nothing |
| Runner.QuietWalk | src/runner.rs:63-83 | a walk that does not recurse, over readable entries none of which is a `.yoink` path, succeeds and changes nothing |

## Left out

- `src/main.rs`, the command line and its exit mapping, are not part of this model. Its exists/file/dir dispatch repeats `Yoink.Dispatch`.
- TOML deserialization, and the UTF-8 check of `read_to_string`, are a parser passed in as a function from bytes to an optional descriptor.
- The gvdb database format and the `Display` of GVariant values are a decoder passed in as a function. Values arrive already rendered as text.
- Diagnostic text is recorded only as an abstract report: the stage and the path it names.
- OS error causes are a single `IoFailure`.
- Symlinks, `.`/`..` normalisation and permissions beyond a readable and a writable flag are not modelled.
- A `.` component is kept as a name. A descriptor reached as `./x.yoink`, for example from a walk of `.`, has parent `.`, which the model resolves to a child named `.` of the current directory. The model therefore cannot enter that parent, while the program enters the current directory. Paths without `.` components are unaffected.
- A write runs short only when the device's free space is exhausted. Space is counted in bytes of file content; blocks and metadata are not modelled.
- `std::env::current_dir` (`src/runner.rs:22`) cannot fail in the model. Moving back to it (`src/runner.rs:35`) cannot fail either, because the runners only read.
- `set_len` failures (`src/yoink.rs:51-56`, `src/style/bytes.rs:71-76`) are not modelled: `set_len` always succeeds in the model, and both callers only cut at the cursor, so their diagnostic lines never appear.
- A directory's listing is fixed when it is read. Files and directories created later do not appear in their parent's listing.
- Bytes written through an open handle reach the file when the handle is closed. No caller reads a file after writing to it through a handle that is still open. (A pull whose resource is its own associated file reads it before anything is written.)
- The `u64` cast of the length passed to `set_len` is not modelled; lengths are unbounded.
- Yoink.IterateYoinkfiles: recursion is bounded by a `depth` argument, and at depth 0 subdirectories are not entered. The program has no bound.
- Runner.YoinkDir: recursion is bounded by a `depth` argument, and a subdirectory met at depth 0 is not entered and counts as a failure. The program has no bound.
