# Compiler probe of `src/cargo/util/rustc.rs`

Cargo learns about the compiler it drives by running `rustc -vV`. It first tries
`rustc -vV --cap-lints allow`. If that run succeeds, the compiler supports lint
capping. If it fails, Cargo runs plain `rustc -vV` once more. The standard output
must be valid UTF-8. It is kept as the *verbose version* banner, and the value of its
`host: ` line becomes the host triple. Fields of the banner are looked up line by
line. A field is the rest of the first line that starts with `key: `.

The project has three modules:

- `Wrappers` (`wrappers.dfy`): `Option` and `Result`.
- `Text` (`text.dfy`): a model of `str::lines`. `Lines` cuts a text at every
  `'\n'`, and a final `'\n'` does not start an empty line. `Unlines` joins
  lines back, each followed by `'\n'`. `Lines(Unlines(ls)) == ls` holds for
  newline-free `ls`. In the other direction, `Unlines(Lines(s))` gives `s` back
  with a final `'\n'` added when it is missing, so `"a"` and `"a\n"` have the
  same lines.
- `Rustc` (`rustc.dfy`): the model of the source file.
  - The free `version_get` is `FindField` over the banner's lines, wrapped in `BannerField`.
  - The struct `Rustc` is a class with the fields `verboseVersion`, `host` and `capLints`.
  - `Rustc::blank` is its constructor `Blank`.
  - `Rustc::version_get` is the class function `VersionGet`.
  - `Rustc::new` is the static method `New`. Like the source, it fills a blank record
    field by field and returns early on each error. It is proved against the pure
    function `Probe`, which states the same construction as a value.

Running the compiler is an input, the oracle `exec: Command -> Option<seq<byte>>`.
It gives the captured stdout of a successful run, or `None` when
`exec_with_output` fails. The command itself is built as in the source, with
`Process(path)` followed by `Arg` calls. UTF-8 decoding (`String::from_utf8`) is
the input `decode: seq<byte> -> Option<string>`.

The regex `^{key}: (.*)$` is modelled as the literal prefix test `key + ": "` (`HasField`).
The captured group is the rest of the line (`FieldValue`). For a key without regex
metacharacters, such as `host`, the two agree. The line has no `'\n'`, so `.*` takes
all of it.

## Model

| member | source | states |
|---|---|---|
| `Text.Lines` | src/cargo/util/rustc.rs:59 | no line of the result holds a `'\n'`, and the text has no lines exactly when it is empty |
| `Rustc.HasFieldExact` | src/cargo/util/rustc.rs:56-60 | the regex `^{key}: (.*)$` on a line, as the prefix test `HasField`: it holds exactly when the line is `key: ` followed by some value |
| `Rustc.FieldValue` | src/cargo/util/rustc.rs:62 | the captured group `caps.at(1)`: the line is exactly `key: ` followed by the returned value |
| `Rustc.Plain` | src/cargo/util/rustc.rs:20-21 | the fallback command, built as `Arg(Process(path), "-vV")` (the models of `util::process` and `arg`), runs the given path with the single argument `-vV` |
| `Rustc.Flagged` | src/cargo/util/rustc.rs:24-25 | the first command is a copy of the plain one with `--cap-lints` and `allow` appended by two `Arg` calls, so it runs the same path with `-vV --cap-lints allow` |
| `Rustc.FindField` | src/cargo/util/rustc.rs:58-62 | finds a value exactly when some line starts with `key: `; the value is such that `key: value` is a line and no earlier line carries the key (first match wins) |
| `Rustc.FindFieldFirst` | src/cargo/util/rustc.rs:58-61 | if line `i` is the first line carrying the key, the result is that line's captured rest, whatever follows |
| `Rustc.FindFieldAppend` | src/cargo/util/rustc.rs:59-61 | lookup in `a + b` is the lookup in `a` when `a` has the key, else the lookup in `b` (lines are scanned in order, lazily) |
| `Rustc.FindFieldIgnores` | src/cargo/util/rustc.rs:60 | a line without the key can be removed anywhere without changing the result (non-matching lines are ignored) |
| `Rustc.BannerField` | src/cargo/util/rustc.rs:55-63 | on the banner text: `Some` exactly when some line of the text starts with `key: `; a result `Some(v)` means `key: v` is a line of the text |
| `Rustc.BannerFieldFirst` | src/cargo/util/rustc.rs:58-62 | with several matching lines of the text, the value comes from the first one in line order |
| `Rustc.BannerFieldUnlines` | src/cargo/util/rustc.rs:58-59 | a banner written as newline-terminated lines is looked up on exactly those lines |
| `Text.UnlinesLines` | src/cargo/util/rustc.rs:59 | re-joining the lines of a text gives the text back, with a `'\n'` added only when the last line was unterminated |
| `Text.LinesUnlines` | src/cargo/util/rustc.rs:59 | splitting newline-free lines joined with terminators gives the same lines back |
| `Rustc.Rustc.Blank` | src/cargo/util/rustc.rs:46-52 | a blank record has an empty banner, an empty host and `capLints` false |
| `Rustc.Rustc.VersionGet` | src/cargo/util/rustc.rs:42-44 | the method is the free lookup applied to the stored banner, so `key: r` is a line of that banner |
| `Rustc.Probe` | src/cargo/util/rustc.rs:19-40 | fails with an exec error exactly when both runs fail; on success, `capLints` holds exactly when the `--cap-lints allow` run succeeded, the banner decodes from that run's stdout or else from the plain run's, and `host` is the banner's `host` field; a decode error happens exactly when the chosen stdout is not UTF-8, and a missing-host error exactly when the decoded banner has no `host: ` line |
| `Rustc.ProbeWellFormed` | src/cargo/util/rustc.rs:26-39 | when the chosen run's stdout decodes to newline-free lines whose first `host` line is line `i`, construction succeeds with exactly that banner, that line's host and `capLints` set by the first run |
| `Rustc.ExampleBannerFields` | src/cargo/util/rustc.rs:55-63 | in the rustc 1.0.0 banner, `host` is `x86_64-unknown-linux-gnu`, `release` is `1.0.0` and `rust-version` is absent |
| `Rustc.Rustc.New` | src/cargo/util/rustc.rs:19-40 | succeeds exactly when `Probe` does, returning a fresh record whose fields are `Probe`'s descriptor; on failure it returns `Probe`'s error and no record |

## Left out

- Process spawning and execution (`util::process`, `exec_with_output`) are OS I/O. Each run's outcome is the `exec` oracle. Exit status and stderr are folded into "succeeded or not".
- The regex engine: keys with regex metacharacters would be read as patterns by the source, and the model reads them literally. The `unwrap` panic on an invalid pattern is not modelled.
- `str::lines`: the model splits on `'\n'` only, as `lines` did in the Rust of this code's time. A `'\r'` before the `'\n'` stays in the line.
- UTF-8 validation (`String::from_utf8`) is the `decode` oracle. Only "valid or not" matters to the model.
- Error payloads and messages (`internal`, `chain_error`): the model keeps one constructor per failing stage (`ExecFailed`, `NotUtf8`, `MissingHost`) and no text.
- Borrowed `&str` results are modelled as copied strings.
- Repeated probing is not modelled as a separate property. `Probe` is a function, so probing the same compiler behaviour twice gives equal descriptors.
