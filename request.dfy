/** The request assembly done by `run` in cmd/lazycommit/main.go before the
    chat completion is requested: checking that a ref and --amend are not
    both given, choosing the hash whose change is described, and appending
    the user's extra context to the prompt's messages. The git processes are
    given as an oracle from a revision to what `git rev-parse` printed. */
module Request {
  import opened Wrappers
  import opened GoStrings

  /** The chat roles of the completion API. */
  datatype Role = System | User | Assistant

  /** One chat message of the prompt. */
  datatype Message = Message(role: Role, content: string)

  /** The options of `run` that the request assembly reads (the API client,
      base URL, model name and dry-run flag are not modelled here). */
  datatype Options = Options(amend: bool, ref: string, context: seq<string>)

  /** What running `git rev-parse <rev>` gave: its standard output, or the
      error of the process. */
  datatype GitOutput = Stdout(text: string) | ExecError(cause: string)

  /** The errors of the request assembly. */
  datatype RunError =
    | RefWithAmend                                   // "cannot use both [ref] and --amend"
    | HeadLookupFailed(cause: string)                // getLastCommitHash's error, returned unchanged
    | ResolveRefFailed(ref: string, cause: string)   // resolveRef's error, wrapped as "resolve ref %q: %w"

  /** The notice placed in front of the user's context messages. */
  const ContextNotice: string :=
    "The user has provided additional context that MUST be included in the commit message"

  /** `git rev-parse rev` through the oracle: the trimmed output, or the
      process error (getLastCommitHash and resolveRef). */
  function RevParse(git: string -> GitOutput, rev: string): (r: Result<string, string>)
    ensures r.Ok? <==> git(rev).Stdout?
    ensures r.Ok? ==> r.value == TrimSpace(git(rev).text)
    ensures r.Ok? ==> NoEdgeSpace(r.value) && |r.value| <= |git(rev).text|
    ensures r.Err? ==> r.error == git(rev).cause
  {
    match git(rev)
    case Stdout(text) => Ok(TrimSpace(text))
    case ExecError(cause) => Err(cause)
  }

  /** A ref and --amend exclude each other. */
  function ValidateTarget(opts: Options): (r: Outcome<RunError>)
    ensures r.Fail? <==> opts.ref != "" && opts.amend
    ensures r.Fail? ==> r.error == RefWithAmend
  {
    if opts.ref != "" && opts.amend then Fail(RefWithAmend) else Pass
  }

  /** The hash handed on to the prompt builder: HEAD's when amending, the
      ref's when one is given, the empty string for the staged changes. */
  function SelectHash(opts: Options, git: string -> GitOutput): (r: Result<string, RunError>)
    ensures !opts.amend && opts.ref == "" ==> r == Ok("")
    ensures opts.amend ==> (r.Ok? <==> git("HEAD").Stdout?)
    ensures opts.amend && r.Ok? ==> r.value == TrimSpace(git("HEAD").text)
    ensures opts.amend && r.Err? ==> r.error == HeadLookupFailed(git("HEAD").cause)
    ensures !opts.amend && opts.ref != "" ==> (r.Ok? <==> git(opts.ref).Stdout?)
    ensures !opts.amend && opts.ref != "" && r.Ok? ==> r.value == TrimSpace(git(opts.ref).text)
    ensures !opts.amend && opts.ref != "" && r.Err? ==>
      r.error == ResolveRefFailed(opts.ref, git(opts.ref).cause)
    ensures r.Ok? ==> NoEdgeSpace(r.value)
  {
    if opts.amend then
      match RevParse(git, "HEAD")
      case Ok(hash) => Ok(hash)
      case Err(cause) => Err(HeadLookupFailed(cause))
    else if opts.ref != "" then
      match RevParse(git, opts.ref)
      case Ok(hash) => Ok(hash)
      case Err(cause) => Err(ResolveRefFailed(opts.ref, cause))
    else
      Ok("")
  }

  /** Validation, then hash selection (lines 94 to 109 of `run`). */
  function PrepareTarget(opts: Options, git: string -> GitOutput): (r: Result<string, RunError>)
    ensures opts.ref != "" && opts.amend ==> r == Err(RefWithAmend)
    ensures r == Err(RefWithAmend) ==> opts.ref != "" && opts.amend
    ensures !(opts.ref != "" && opts.amend) ==> r == SelectHash(opts, git)
  {
    match ValidateTarget(opts)
    case Fail(e) => Err(e)
    case Pass => SelectHash(opts, git)
  }

  /** The revisions `run` asks git to resolve before building the prompt. */
  function Lookups(opts: Options): (revs: seq<string>)
    ensures ValidateTarget(opts).Fail? ==> revs == []
    ensures opts.ref == "" && !opts.amend ==> revs == []
    ensures |revs| <= 1
  {
    if ValidateTarget(opts).Fail? then []
    else if opts.amend then ["HEAD"]
    else if opts.ref != "" then [opts.ref]
    else []
  }

  /** Giving both a ref and --amend fails with RefWithAmend whatever git
      would answer: nothing is resolved in that case. */
  lemma ConflictFailsBeforeLookup(opts: Options, git: string -> GitOutput)
    requires opts.ref != "" && opts.amend
    ensures PrepareTarget(opts, git) == Err(RefWithAmend)
    ensures Lookups(opts) == []
  {
  }

  /** The outcome depends on git only through the revisions in Lookups. */
  lemma PrepareTargetReadsOnlyLookups(opts: Options, g1: string -> GitOutput, g2: string -> GitOutput)
    requires forall rev :: rev in Lookups(opts) ==> g1(rev) == g2(rev)
    ensures PrepareTarget(opts, g1) == PrepareTarget(opts, g2)
  {
    if ValidateTarget(opts).Pass? {
      if opts.amend {
        assert "HEAD" in Lookups(opts);
      } else if opts.ref != "" {
        assert opts.ref in Lookups(opts);
      }
    }
  }

  /** The three ways a target is chosen, with their error cases. */
  lemma PrepareTargetCases(opts: Options, git: string -> GitOutput)
    ensures opts.amend && opts.ref == "" ==>
      PrepareTarget(opts, git) ==
        (match git("HEAD")
         case Stdout(text) => Ok(TrimSpace(text))
         case ExecError(cause) => Err(HeadLookupFailed(cause)))
    ensures !opts.amend && opts.ref != "" ==>
      PrepareTarget(opts, git) ==
        (match git(opts.ref)
         case Stdout(text) => Ok(TrimSpace(text))
         case ExecError(cause) => Err(ResolveRefFailed(opts.ref, cause)))
    ensures !opts.amend && opts.ref == "" ==> PrepareTarget(opts, git) == Ok("")
    ensures PrepareTarget(opts, git).Ok? ==> NoEdgeSpace(PrepareTarget(opts, git).value)
  {
  }

  /** The extra context appended to the prompt: nothing when there is none;
      otherwise the system notice, then one user message per context string,
      in order, all behind the untouched messages of the prompt. */
  method AppendContext(msgs: seq<Message>, context: seq<string>) returns (out: seq<Message>)
    ensures |out| == if context == [] then |msgs| else |msgs| + 1 + |context|
    ensures out[..|msgs|] == msgs
    ensures context != [] ==> out[|msgs|] == Message(System, ContextNotice)
    ensures forall i :: 0 <= i < |context| ==> out[|msgs| + 1 + i] == Message(User, context[i])
  {
    out := msgs;
    if |context| > 0 {
      out := out + [Message(System, ContextNotice)];
      var i := 0;
      while i < |context|
        invariant 0 <= i <= |context|
        invariant |out| == |msgs| + 1 + i
        invariant out[..|msgs|] == msgs
        invariant out[|msgs|] == Message(System, ContextNotice)
        invariant forall k :: 0 <= k < i ==> out[|msgs| + 1 + k] == Message(User, context[k])
      {
        out := out + [Message(User, context[i])];
        i := i + 1;
      }
    }
  }
}
