/** The commit command of `run` in cmd/lazycommit/main.go and its dry-run
    rendering by `formatShellCommand`. The executable lookup of
    `exec.Command`, `filepath.Base` and `shellescape.Quote` are library code
    and enter as function parameters, so only the structure built around
    them is modelled. */
module CommitCommand {
  import opened GoStrings
  import opened CleanMessage

  /** The fields of an `exec.Cmd` that matter here: the resolved executable
      and the argument vector, whose first element is the command name. */
  datatype Cmd = Cmd(path: string, args: seq<string>)

  /** `exec.Command(name, arg...)`: the path comes from looking the name up,
      the arguments are the name followed by `arg`. */
  function Command(name: string, arg: seq<string>, lookPath: string -> string): (c: Cmd)
    ensures c.path == lookPath(name)
    ensures |c.args| == |arg| + 1 && c.args[0] == name && c.args[1..] == arg
  {
    Cmd(lookPath(name), [name] + arg)
  }

  /** `cmd` is the commit command of `run` for message `msg`:
      `git commit -m msg`, with `--amend` as one more, last, argument
      exactly when amending. */
  predicate IsCommitCommand(cmd: Cmd, msg: string, amend: bool, lookPath: string -> string) {
    && cmd.path == lookPath("git")
    && |cmd.args| == (if amend then 5 else 4)
    && cmd.args[..4] == ["git", "commit", "-m", msg]
    && (amend ==> cmd.args[4] == "--amend")
  }

  /** Builds the commit command, appending `--amend` to its arguments when
      amending. */
  method BuildCommitCommand(msg: string, amend: bool, lookPath: string -> string) returns (cmd: Cmd)
    ensures IsCommitCommand(cmd, msg, amend, lookPath)
  {
    cmd := Command("git", ["commit", "-m", msg], lookPath);
    if amend {
      cmd := cmd.(args := cmd.args + ["--amend"]);
    }
  }

  /** Each argument quoted and preceded by one space, in order. */
  function SpaceQuoted(args: seq<string>, quote: string -> string): string {
    if args == [] then "" else " " + quote(args[0]) + SpaceQuoted(args[1..], quote)
  }

  /** SpaceQuoted maps concatenation of argument lists to concatenation of
      strings. */
  lemma {:induction false} SpaceQuotedAppend(xs: seq<string>, ys: seq<string>, quote: string -> string)
    ensures SpaceQuoted(xs + ys, quote) == SpaceQuoted(xs, quote) + SpaceQuoted(ys, quote)
  {
    if xs == [] {
      assert xs + ys == ys;
    } else {
      assert (xs + ys)[1..] == xs[1..] + ys;
      SpaceQuotedAppend(xs[1..], ys, quote);
    }
  }

  /** Appending one argument appends its quoted form behind one space. */
  lemma SpaceQuotedSnoc(xs: seq<string>, x: string, quote: string -> string)
    ensures SpaceQuoted(xs + [x], quote) == SpaceQuoted(xs, quote) + " " + quote(x)
  {
    SpaceQuotedAppend(xs, [x], quote);
    assert [x][1..] == [];
  }

  /** The command line shown by a dry run: the base name of the executable,
      then every argument after the command name, quoted, each behind one
      space. The source slices `cmd.Args[1:]`, which fails on an empty
      argument list; `exec.Command` always puts the command name first, so
      every command it builds has at least one argument. */
  method FormatShellCommand(cmd: Cmd, base: string -> string, quote: string -> string) returns (line: string)
    requires |cmd.args| >= 1
    ensures line == base(cmd.path) + SpaceQuoted(cmd.args[1..], quote)
  {
    line := base(cmd.path);
    var i := 1;
    while i < |cmd.args|
      invariant 1 <= i <= |cmd.args|
      invariant line == base(cmd.path) + SpaceQuoted(cmd.args[1..i], quote)
    {
      assert cmd.args[1..i + 1] == cmd.args[1..i] + [cmd.args[i]];
      SpaceQuotedSnoc(cmd.args[1..i], cmd.args[i], quote);
      line := line + " " + quote(cmd.args[i]);
      i := i + 1;
    }
    assert cmd.args[1..i] == cmd.args[1..];
  }

  /** Three leading arguments are quoted one by one. */
  lemma SpaceQuotedThree(x: string, y: string, z: string, rest: seq<string>, quote: string -> string)
    ensures SpaceQuoted([x, y, z] + rest, quote) ==
      " " + quote(x) + " " + quote(y) + " " + quote(z) + SpaceQuoted(rest, quote)
  {
    var r2 := [z] + rest;
    var r1 := [y] + r2;
    var all := [x] + r1;
    assert r2[1..] == rest && r1[1..] == r2 && all[1..] == r1;
    assert SpaceQuoted(r2, quote) == " " + quote(z) + SpaceQuoted(rest, quote);
    assert SpaceQuoted(r1, quote) == " " + quote(y) + SpaceQuoted(r2, quote);
    assert SpaceQuoted(all, quote) == " " + quote(x) + SpaceQuoted(r1, quote);
    assert [x, y, z] + rest == all;
  }

  /** The dry-run line of the commit command, argument by argument. */
  lemma CommitCommandLine(cmd: Cmd, msg: string, amend: bool, lookPath: string -> string,
                          base: string -> string, quote: string -> string)
    requires IsCommitCommand(cmd, msg, amend, lookPath)
    ensures base(cmd.path) + SpaceQuoted(cmd.args[1..], quote) ==
      base(lookPath("git")) + " " + quote("commit") + " " + quote("-m") + " " + quote(msg)
        + (if amend then " " + quote("--amend") else "")
  {
    var rest := cmd.args[4..];
    var head := cmd.args[..4];
    assert cmd.args == head + rest;
    assert head[1..] == ["commit", "-m", msg];
    assert cmd.args[1..] == head[1..] + rest;
    SpaceQuotedThree("commit", "-m", msg, rest, quote);
    if amend {
      assert rest == [] + ["--amend"];
      SpaceQuotedSnoc([], "--amend", quote);
    } else {
      assert rest == [];
    }
  }

  /** As written, `run` builds the commit command from the reply exactly
      as it was streamed (`msg.String()`), so for every fenced reply the
      message argument keeps its fences and differs from the cleaned reply. */
  lemma FencedReplyCommittedVerbatim(cmd: Cmd, s: string, amend: bool, lookPath: string -> string)
    requires IsCommitCommand(cmd, Fence + s + Fence, amend, lookPath)
    ensures cmd.args[3] == Fence + s + Fence
    ensures cmd.args[3] != CleanAIMessage(Fence + s + Fence)
  {
    assert cmd.args[3] == cmd.args[..4][3];
    FencedIsUnwrapped(s);
    assert |TrimSpace(s)| < |Fence + s + Fence|;
  }

  /** The commit command for a reply with the reply cleaned first, as the
      post-processor is evidently meant to be used: the message argument has
      no surrounding white space, and a fenced reply loses its fences. */
  method BuildReplyCommitCommand(reply: string, amend: bool, lookPath: string -> string) returns (cmd: Cmd)
    ensures IsCommitCommand(cmd, CleanAIMessage(reply), amend, lookPath)
    ensures NoEdgeSpace(cmd.args[3])
    ensures forall s :: reply == Fence + s + Fence ==> cmd.args[3] == TrimSpace(s)
  {
    var msg := CleanAIMessage(reply);
    cmd := BuildCommitCommand(msg, amend, lookPath);
    assert cmd.args[3] == cmd.args[..4][3] == msg;
    forall s | reply == Fence + s + Fence
      ensures msg == TrimSpace(s)
    {
      FencedIsUnwrapped(s);
    }
  }
}
