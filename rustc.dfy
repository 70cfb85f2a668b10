/**
  The compiler probe of src/cargo/util/rustc.rs: run `rustc -vV` (first with
  `--cap-lints allow`), keep the banner it prints, and look fields of the form
  `key: value` up in it.
 */
module Rustc {
  import opened Wrappers
  import opened Text

  newtype byte = b: int | 0 <= b < 256

  // ---------------------------------------------------------------------
  // Banner fields
  // ---------------------------------------------------------------------

  /**
    The line matches `^key: (.*)$`: it starts with `key` followed by ": ".
    A line holds no '\n', so `.*` matches whatever follows.
   */
  predicate HasField(line: string, key: string) {
    |key| + 2 <= |line| && line[..|key| + 2] == key + ": "
  }

  /** The prefix test is exactly "the line is `key: ` followed by some value". */
  lemma HasFieldExact(line: string, key: string)
    ensures HasField(line, key) <==> exists v :: line == key + ": " + v
  {
    if HasField(line, key) {
      assert line == key + ": " + line[|key| + 2..];
    }
  }

  /** What the capture group `(.*)` takes: the rest of the line after `key: `. */
  function FieldValue(line: string, key: string): (v: string)
    requires HasField(line, key)
    ensures line == key + ": " + v
  {
    line[|key| + 2..]
  }

  /** Some line of `lines` carries `key`. */
  predicate SomeLineHas(lines: seq<string>, key: string) {
    exists i :: 0 <= i < |lines| && HasField(lines[i], key)
  }

  /** The captured value of the first line carrying `key`, in line order. */
  function FindField(lines: seq<string>, key: string): (r: Option<string>)
    ensures r.Some? <==> SomeLineHas(lines, key)
    ensures r.Some? ==>
      exists i :: 0 <= i < |lines| && lines[i] == key + ": " + r.value &&
                  forall j :: 0 <= j < i ==> !HasField(lines[j], key)
  {
    if lines == [] then None
    else if HasField(lines[0], key) then Some(FieldValue(lines[0], key))
    else FindField(lines[1..], key)
  }

  /** The first line carrying `key` decides the result, whatever follows it. */
  lemma {:induction false} FindFieldFirst(lines: seq<string>, key: string, i: nat)
    requires i < |lines| && HasField(lines[i], key)
    requires forall j :: 0 <= j < i ==> !HasField(lines[j], key)
    ensures FindField(lines, key) == Some(FieldValue(lines[i], key))
  {
    if i > 0 {
      assert !HasField(lines[0], key);
      FindFieldFirst(lines[1..], key, i - 1);
    }
  }

  /** Lookup over two blocks of lines: the first block wins when it has the key. */
  lemma {:induction false} FindFieldAppend(a: seq<string>, b: seq<string>, key: string)
    ensures FindField(a + b, key) == if FindField(a, key).Some? then FindField(a, key) else FindField(b, key)
  {
    if a == [] {
      assert a + b == b;
    } else {
      assert (a + b)[0] == a[0];
      assert (a + b)[1..] == a[1..] + b;
      FindFieldAppend(a[1..], b, key);
    }
  }

  /** A line that does not carry `key` can be dropped without changing the lookup. */
  lemma FindFieldIgnores(a: seq<string>, line: string, b: seq<string>, key: string)
    requires !HasField(line, key)
    ensures FindField(a + [line] + b, key) == FindField(a + b, key)
  {
    var tail := [line] + b;
    assert a + [line] + b == a + tail;
    assert tail[0] == line && tail[1..] == b;
    assert FindField(tail, key) == FindField(b, key);
    FindFieldAppend(a, tail, key);
    FindFieldAppend(a, b, key);
  }

  /** The free `version_get`: the value of the first `key: value` line of the banner. */
  function BannerField(verboseVersion: string, key: string): (r: Option<string>)
    ensures r.Some? <==> SomeLineHas(Lines(verboseVersion), key)
    ensures r.Some? ==> key + ": " + r.value in Lines(verboseVersion)
  {
    FindField(Lines(verboseVersion), key)
  }

  /** Of several lines carrying `key`, the first in line order gives the value. */
  lemma BannerFieldFirst(verboseVersion: string, key: string, i: nat)
    requires i < |Lines(verboseVersion)| && HasField(Lines(verboseVersion)[i], key)
    requires forall j :: 0 <= j < i ==> !HasField(Lines(verboseVersion)[j], key)
    ensures BannerField(verboseVersion, key) == Some(FieldValue(Lines(verboseVersion)[i], key))
  {
    FindFieldFirst(Lines(verboseVersion), key, i);
  }

  /** On a banner written as newline-terminated lines, lookup works on those lines. */
  lemma BannerFieldUnlines(ls: seq<string>, key: string)
    requires NoNewlines(ls)
    ensures BannerField(Unlines(ls), key) == FindField(ls, key)
  {
    LinesUnlines(ls);
  }

  // ---------------------------------------------------------------------
  // Running the compiler
  // ---------------------------------------------------------------------

  /** A process invocation: the program and its arguments so far. */
  datatype Command = Command(program: string, args: seq<string>)

  function Process(path: string): Command {
    Command(path, [])
  }

  function Arg(cmd: Command, arg: string): Command {
    cmd.(args := cmd.args + [arg])
  }

  /** `rustc -vV` */
  function Plain(path: string): (cmd: Command)
    ensures cmd.program == path && cmd.args == ["-vV"]
  {
    Arg(Process(path), "-vV")
  }

  /** `rustc -vV --cap-lints allow`: a copy of the plain command with two more arguments. */
  function Flagged(path: string): (cmd: Command)
    ensures cmd.program == path && cmd.args == Plain(path).args + ["--cap-lints", "allow"]
    ensures cmd.args == ["-vV", "--cap-lints", "allow"]
  {
    Arg(Arg(Plain(path), "--cap-lints"), "allow")
  }

  /**
    What running a command gives: its standard output when it ran and exited
    successfully, None otherwise.
   */
  type Exec = Command -> Option<seq<byte>>

  /** UTF-8 decoding of captured bytes: None when they are not valid UTF-8. */
  type Decode = seq<byte> -> Option<string>

  datatype Error = ExecFailed | NotUtf8 | MissingHost

  /** The value held by a `Rustc` record. */
  datatype Descriptor = Descriptor(verboseVersion: string, host: string, capLints: bool)

  /**
    What `Rustc::new` produces, as a value: all of the descriptor or an error,
    never a partly filled record.
   */
  function Probe(path: string, exec: Exec, decode: Decode): (r: Result<Descriptor, Error>)
    ensures var first, second := exec(Flagged(path)), exec(Plain(path));
      && (r == Failure(ExecFailed) <==> first.None? && second.None?)
      && (r.Success? ==> (r.value.capLints <==> first.Some?))
      && (r.Success? && r.value.capLints ==> decode(first.value) == Some(r.value.verboseVersion))
      && (r.Success? && !r.value.capLints ==>
            second.Some? && decode(second.value) == Some(r.value.verboseVersion))
      && (r.Success? ==> BannerField(r.value.verboseVersion, "host") == Some(r.value.host))
      && (r.Success? ==> "host: " + r.value.host in Lines(r.value.verboseVersion))
    ensures var output := if exec(Flagged(path)).Some? then exec(Flagged(path)) else exec(Plain(path));
      && (r == Failure(NotUtf8) <==> output.Some? && decode(output.value).None?)
      && (r == Failure(MissingHost) <==>
            output.Some? && decode(output.value).Some? && BannerField(decode(output.value).value, "host").None?)
  {
    var output := match exec(Flagged(path))
      case Some(out) => Some(out)
      case None => exec(Plain(path));
    match output
    case None => Failure(ExecFailed)
    case Some(stdout) =>
      match decode(stdout)
      case None => Failure(NotUtf8)
      case Some(text) =>
        match BannerField(text, "host")
        case None => Failure(MissingHost)
        case Some(host) =>
          assert "host" + ": " + host == "host: " + host;
          Success(Descriptor(text, host, exec(Flagged(path)).Some?))
  }

  /**
    A compiler whose chosen run prints, as valid UTF-8, newline-free lines
    whose first `host` line is line `i` yields exactly that banner and host.
   */
  lemma ProbeWellFormed(path: string, exec: Exec, decode: Decode, ls: seq<string>, i: nat)
    requires exec(Flagged(path)).Some? || exec(Plain(path)).Some?
    requires var out := if exec(Flagged(path)).Some? then exec(Flagged(path)) else exec(Plain(path));
      decode(out.value) == Some(Unlines(ls))
    requires NoNewlines(ls)
    requires i < |ls| && HasField(ls[i], "host")
    requires forall j :: 0 <= j < i ==> !HasField(ls[j], "host")
    ensures Probe(path, exec, decode) ==
      Success(Descriptor(Unlines(ls), FieldValue(ls[i], "host"), exec(Flagged(path)).Some?))
  {
    BannerFieldUnlines(ls, "host");
    FindFieldFirst(ls, "host", i);
  }

  /** The banner of rustc 1.0.0. */
  const ExampleBanner: seq<string> := [
    "rustc 1.0.0 (a59de37e9 2015-05-13) " + "(built 2015-05-14)",
    "binary: rustc",
    "commit-hash: " + "a59de37e99060162a2674e3ff45409ac73595c0",
    "commit-date: 2015-05-13",
    "host: x86_64-unknown-linux-gnu",
    "release: 1.0.0"
  ]

  lemma ExampleBannerNoNewlines()
    ensures NoNewlines(ExampleBanner)
  {
    var b := ExampleBanner;
    assert '\n' !in b[0];
    assert '\n' !in b[1];
    assert '\n' !in b[2];
    assert '\n' !in b[3];
    assert '\n' !in b[4];
    assert '\n' !in b[5];
  }

  /** In the rustc 1.0.0 banner, `host` and `release` are found and `rust-version` is absent. */
  lemma ExampleBannerFields()
    ensures BannerField(Unlines(ExampleBanner), "host") == Some("x86_64-unknown-linux-gnu")
    ensures BannerField(Unlines(ExampleBanner), "release") == Some("1.0.0")
    ensures BannerField(Unlines(ExampleBanner), "rust-version") == None
  {
    var b := ExampleBanner;
    ExampleBannerNoNewlines();
    BannerFieldUnlines(b, "host");
    BannerFieldUnlines(b, "release");
    BannerFieldUnlines(b, "rust-version");
    ExampleBannerHost();
    ExampleBannerRelease();
    ExampleBannerNoRustVersion();
  }

  /** A line that differs from `key` at some position inside both does not carry `key`. */
  lemma NotField(line: string, key: string, k: nat)
    requires k < |key| && k < |line| && line[k] != key[k]
    ensures !HasField(line, key)
  {
  }

  lemma ExampleBannerHost()
    ensures FindField(ExampleBanner, "host") == Some("x86_64-unknown-linux-gnu")
  {
    var b := ExampleBanner;
    NotField(b[0], "host", 0);
    NotField(b[1], "host", 0);
    NotField(b[2], "host", 0);
    NotField(b[3], "host", 0);
    FindFieldFirst(b, "host", 4);
  }

  lemma ExampleBannerRelease()
    ensures FindField(ExampleBanner, "release") == Some("1.0.0")
  {
    var b := ExampleBanner;
    NotField(b[0], "release", 1);
    NotField(b[1], "release", 0);
    NotField(b[2], "release", 0);
    NotField(b[3], "release", 0);
    NotField(b[4], "release", 0);
    FindFieldFirst(b, "release", 5);
  }

  lemma ExampleBannerNoRustVersion()
    ensures FindField(ExampleBanner, "rust-version") == None
  {
    var b := ExampleBanner;
    NotField(b[0], "rust-version", 4);
    NotField(b[1], "rust-version", 0);
    NotField(b[2], "rust-version", 0);
    NotField(b[3], "rust-version", 0);
    NotField(b[4], "rust-version", 0);
    NotField(b[5], "rust-version", 1);
    forall i | 0 <= i < |b| ensures !HasField(b[i], "rust-version") {
      assert i == 0 || i == 1 || i == 2 || i == 3 || i == 4 || i == 5;
    }
  }

  // ---------------------------------------------------------------------
  // The record
  // ---------------------------------------------------------------------

  class Rustc {
    var verboseVersion: string
    var host: string
    var capLints: bool

    function Value(): Descriptor
      reads this
    {
      Descriptor(verboseVersion, host, capLints)
    }

    /** `Rustc::blank`: an empty banner, an empty host, no lint capping. */
    constructor Blank()
      ensures verboseVersion == [] && host == [] && !capLints
    {
      verboseVersion, host, capLints := [], [], false;
    }

    /** Field lookup on the stored banner. */
    function VersionGet(key: string): (r: Option<string>)
      reads this
      ensures r == BannerField(verboseVersion, key)
      ensures r.Some? ==> key + ": " + r.value in Lines(verboseVersion)
    {
      BannerField(verboseVersion, key)
    }

    /**
      `Rustc::new`: try `-vV --cap-lints allow`, else `-vV`; keep the decoded
      banner and its `host` line. The record is filled field by field and
      handed out only when every step succeeded.
     */
    static method New(path: string, exec: Exec, decode: Decode) returns (r: Result<Rustc, Error>)
      ensures r.Success? <==> Probe(path, exec, decode).Success?
      ensures r.Success? ==> fresh(r.value) && r.value.Value() == Probe(path, exec, decode).value
      ensures r.Failure? ==> Probe(path, exec, decode) == Failure(r.error)
    {
      var cmd := Process(path);
      cmd := Arg(cmd, "-vV");

      var ret := new Rustc.Blank();
      var first := cmd;
      first := Arg(Arg(first, "--cap-lints"), "allow");
      var output: seq<byte>;
      match exec(first) {
        case Some(out) =>
          ret.capLints := true;
          output := out;
        case None =>
          match exec(cmd) {
            case None => return Failure(ExecFailed);
            case Some(out) => output := out;
          }
      }
      match decode(output) {
        case None => return Failure(NotUtf8);
        case Some(text) => ret.verboseVersion := text;
      }
      match BannerField(ret.verboseVersion, "host") {
        case None => return Failure(MissingHost);
        case Some(h) => ret.host := h;
      }
      return Success(ret);
    }
  }
}
