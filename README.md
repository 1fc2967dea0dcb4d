# lazycommit front end, modelled in Dafny

lazycommit writes a commit message with a chat-completion model. Its command
line front end, `cmd/lazycommit/main.go`, does four jobs around the prompt
builder:

- it checks that a ref and `--amend` are not both given;
- it chooses the commit hash whose change is to be described;
- it appends the user's `--context` strings to the prompt as extra chat messages;
- it builds the `git commit -m <msg> [--amend]` command and renders it as a
  shell line for `--dry-run`.

It also contains `cleanAIMessage`, which strips a Markdown code fence and
surrounding white space from a model reply.

This project models that logic and proves its properties. The external
collaborators enter as values or function parameters:

- what `git rev-parse` prints is an oracle from a revision to its output or error;
- the executable lookup of `exec.Command` is a parameter `lookPath`;
- `filepath.Base` and `shellescape.Quote` are parameters `base` and `quote`.

Files (one module each):

- `wrappers.dfy`: `Result` and `Outcome`, for Go's `(value, error)` and `error` returns.
- `go_strings.dfy`: the part of Go's `strings` package that is used:
  `HasPrefix`, `HasSuffix`, `TrimPrefix`, `TrimSuffix` and `TrimSpace`.
  White space is a fixed set of six ASCII characters: space, tab, newline,
  CR, VT and FF.
- `clean_message.dfy`: `cleanAIMessage` and its edge cases.
- `request.dfy`: target validation, hash selection and context appending from `run`.
- `commit_command.dfy`: the commit command, `formatShellCommand`, and the finding below.

`BuildPrompt` is called at main.go:111 but defined outside main.go, so it is
not modelled. `run` commits the raw reply (main.go:166), although
`cleanAIMessage` exists to strip code fences from it; the model follows the
code, see "## Findings".

## Model

| member | source | states |
|---|---|---|
| GoStrings.HasPrefix | cmd/lazycommit/main.go:80 | the text starts with the prefix exactly when the prefix followed by the rest of the text is the text |
| GoStrings.HasSuffix | cmd/lazycommit/main.go:81 | the text ends with the suffix exactly when the text without its last characters, followed by the suffix, is the text |
| GoStrings.TrimPrefix | cmd/lazycommit/main.go:82 | if the text starts with the prefix, prefix + result is the text; otherwise the text is unchanged |
| GoStrings.TrimSuffix | cmd/lazycommit/main.go:81 | if the text ends with the suffix, result + suffix is the text; otherwise the text is unchanged |
| GoStrings.TrimLeftSpace | cmd/lazycommit/main.go:84 | the result is a suffix of the text; everything dropped is white space; the result does not start with white space |
| GoStrings.TrimRightSpace | cmd/lazycommit/main.go:84 | the result is a prefix of the text; everything dropped is white space; the result does not end with white space |
| GoStrings.TrimSpace | cmd/lazycommit/main.go:84 | the result is never longer than the text and has no white space at either end |
| GoStrings.TrimSpaceUnique | cmd/lazycommit/main.go:84 | white space, then a part with no white space at its ends, then white space: trimming gives exactly that part |
| GoStrings.TrimSpaceIdempotent | cmd/lazycommit/main.go:84 | trimming twice gives the same result as trimming once |
| CleanMessage.CleanAIMessage | cmd/lazycommit/main.go:77-86 | the cleaned message is never longer than the reply and has no white space at either end |
| CleanMessage.Unwrap | cmd/lazycommit/main.go:80-83 | the fence removal never lengthens the reply; a reply not starting with a fence is unchanged; a reply that is a fence, a text and a fence gives that text; a reply that opens a fence without closing it loses only the opening fence; a reply of three to five backticks that both starts and ends with a fence loses only the trailing fence |
| CleanMessage.UnfencedIsTrimmed | cmd/lazycommit/main.go:80-84 | a reply that does not start with three backticks is only trimmed, so a fence at its end alone is kept |
| CleanMessage.FencedIsUnwrapped | cmd/lazycommit/main.go:80-84 | for every s, cleaning "```" + s + "```" gives the trimmed s |
| CleanMessage.UnclosedFenceIsUnwrapped | cmd/lazycommit/main.go:80-84 | for every s such that "```" + s does not end with a fence, cleaning it gives the trimmed s |
| CleanMessage.UnwrapIsSlice | cmd/lazycommit/main.go:80-83 | removing the fences leaves a contiguous piece of the reply |
| CleanMessage.TrimLeftSpaceIsSlice | cmd/lazycommit/main.go:84 | removing leading white space leaves a contiguous piece of the text |
| CleanMessage.TrimRightSpaceIsSlice | cmd/lazycommit/main.go:84 | removing trailing white space leaves a contiguous piece of the text |
| CleanMessage.TrimSpaceIsSlice | cmd/lazycommit/main.go:84 | trimming leaves a contiguous piece of the text |
| CleanMessage.CleanIsSubstring | cmd/lazycommit/main.go:77-86 | the cleaned message is a contiguous substring of the reply |
| CleanMessage.BareFenceIsEmpty | cmd/lazycommit/main.go:80-84 | a reply of exactly three backticks cleans to the empty message |
| CleanMessage.FourBackticksKeepOne | cmd/lazycommit/main.go:80-84 | four backticks clean to one: the trailing fence goes first, and what is left no longer starts with a fence |
| CleanMessage.TrailingFenceOnlyIsKept | cmd/lazycommit/main.go:80-84 | a reply that ends in a fence but starts with neither a backtick nor white space is kept unchanged, so "fix```" stays "fix```" |
| CleanMessage.NewlineAfterFenceUnwrapsOpeningOnly | cmd/lazycommit/main.go:80-83 | when a newline follows the closing fence, the fence removal drops only the opening fence |
| CleanMessage.TrimSpaceKeepsClosingFence | cmd/lazycommit/main.go:84 | white space, then a text not starting with white space, then a closing part without white space at its edges (such as a fence), then white space: trimming keeps the text and the closing part |
| CleanMessage.NewlineAfterClosingFenceKeepsIt | cmd/lazycommit/main.go:80-84 | the suffix is checked before trimming, so a reply of a fence, white space, a text, a fence and a newline keeps its closing fence: it cleans to the text followed by "```" |
| CleanMessage.DoubleFenceLosesOuterPair | cmd/lazycommit/main.go:77-86 | a reply fenced twice loses only the outer pair, and cleaning again gives the trimmed inside, so cleaning is not idempotent |
| CleanMessage.NoEdgeSpaceIsFixed | cmd/lazycommit/main.go:84 | trimming leaves alone a text that has no white space at its ends |
| Request.RevParse | cmd/lazycommit/main.go:49-65 | `git rev-parse` succeeds exactly when the process ran without error (the oracle gives `Stdout`); the hash is then exactly that output trimmed, with no white space at its ends; a process error is returned unchanged |
| Request.ValidateTarget | cmd/lazycommit/main.go:94-96 | validation fails exactly when a ref is given together with --amend; the error is then RefWithAmend |
| Request.Lookups | cmd/lazycommit/main.go:98-109 | the revisions handed to git rev-parse: none when validation fails or when neither a ref nor --amend is given, otherwise at most one |
| Request.SelectHash | cmd/lazycommit/main.go:98-109 | no ref and no --amend give ""; amending succeeds exactly when rev-parse of HEAD succeeds, and otherwise fails with HEAD's process error unwrapped; a success returns the trimmed output of rev-parse of HEAD; a ref succeeds exactly when its rev-parse succeeds, returning its trimmed output, and otherwise fails with the error wrapped together with the ref; a hash never has white space at its ends |
| Request.PrepareTarget | cmd/lazycommit/main.go:94-109 | it fails with RefWithAmend exactly when a ref is given together with --amend; otherwise it is the hash selection |
| Request.ConflictFailsBeforeLookup | cmd/lazycommit/main.go:94-96 | with both a ref and --amend the result is RefWithAmend whatever git answers, and nothing is looked up |
| Request.PrepareTargetReadsOnlyLookups | cmd/lazycommit/main.go:94-109 | two git oracles that agree on the looked-up revisions give the same outcome |
| Request.PrepareTargetCases | cmd/lazycommit/main.go:98-109 | amend gives HEAD's trimmed rev-parse output, with a failure returned unwrapped; otherwise a non-empty ref gives its trimmed output, with a failure wrapped together with the ref; otherwise the hash is ""; a hash never has white space at its ends |
| Request.AppendContext | cmd/lazycommit/main.go:116-127 | no context leaves the messages unchanged; otherwise the original messages come first and untouched, then one System message with the fixed notice, then one User message per context string in order, so the list grows by the number of strings plus one |
| CommitCommand.Command | cmd/lazycommit/main.go:166 | `exec.Command`: the path is the looked-up name, and the arguments are the name followed by the given arguments |
| CommitCommand.BuildCommitCommand | cmd/lazycommit/main.go:166-169 | the command is git found through the path lookup, with arguments git, commit, -m and the message; --amend is a fifth and last argument exactly when amending |
| CommitCommand.SpaceQuoted | cmd/lazycommit/main.go:70-73 | the reference join: " " + quote(a) for each argument, in order; its properties are in SpaceQuotedAppend, SpaceQuotedSnoc and CommitCommandLine |
| CommitCommand.SpaceQuotedAppend | cmd/lazycommit/main.go:70-73 | quoting the concatenation of two argument lists gives the concatenation of the two quoted lines |
| CommitCommand.SpaceQuotedSnoc | cmd/lazycommit/main.go:70-73 | one more argument adds one space and its quoted form at the end, as one step of the loop does |
| CommitCommand.FormatShellCommand | cmd/lazycommit/main.go:67-75 | the line is base(path) followed by " " + quote(a) for each argument after the first, in order |
| CommitCommand.CommitCommandLine | cmd/lazycommit/main.go:166-173 | the dry-run line of the commit command is base(path), then the quoted commit, -m and message, and the quoted --amend exactly when amending, each after one space |
| CommitCommand.FencedReplyCommittedVerbatim | cmd/lazycommit/main.go:166 | as written, the commit command built from a fenced reply carries the reply with its fences as its message argument, and this differs from the cleaned reply for every fenced reply |
| CommitCommand.BuildReplyCommitCommand | cmd/lazycommit/main.go:77-86 | the commit command built from the cleaned reply: the message argument has no white space at its ends, and a fenced reply loses its fences |

## Left out

- `BuildPrompt` and its token budget of 128000 (main.go:111): it is defined outside main.go and is not part of this model. The hash chosen by `PrepareTarget` is what it would receive.
- `os.Getwd` and its error (main.go:89-92): a filesystem call.
- Process execution: `git rev-parse` (main.go:49-65) and `git commit` (main.go:177-180). The output or error of `git rev-parse` is an input of the model, and the trimming of that output is modelled. Running `git commit` and its result are not modelled.
- The chat-completion stream and the receive loop that fills the reply buffer (main.go:129-164): network I/O. The reply enters the model as a string.
- Printing: the reply echo and the newline after it, the dry-run notice and line (main.go:162, 164, 171-174), and `errorf`/`debugf` with terminal colours (main.go:36-47).
- `main` (main.go:183-219): cobra flag parsing, the API key check and `os.Exit`.
- The internals of `exec.LookPath`, `filepath.Base` and `shellescape.Quote`: library code. They are function parameters, so only the joining structure of `formatShellCommand` is verified.
- GoStrings.TrimSpace: Go's `TrimSpace` also strips Unicode white space such as U+0085 and U+00A0. The model strips only the six ASCII characters, and the same holds for every member built on GoStrings.TrimSpace.
- Error messages are modelled as values (`RefWithAmend`, `HeadLookupFailed`, `ResolveRefFailed` carrying the ref), not as formatted text; Go's `%q` quoting is library code.
- The options client and model name are used only by the chat-completion request (main.go:130-131). The client is built from the API key at main.go:201. They are not modelled.
- The `--openai-base-url` flag (main.go:210) is parsed into `opts.openAIBaseURL` and never read, so it has no effect to model.

## Findings

| source | as written | input that shows it | evidently intended | confidence | as-written member | corrected member |
|---|---|---|---|---|---|---|
| cmd/lazycommit/main.go:166 | `run` commits `msg.String()`, the raw streamed reply; `cleanAIMessage` is never applied to it | the reply "```" + "fix" + "```" is committed with its fences | commit `cleanAIMessage(reply)`, as the comment in `cleanAIMessage` about fence-wrapped replies implies | not executed; medium, since a file of the package outside this model could call `cleanAIMessage` | CommitCommand.FencedReplyCommittedVerbatim | CommitCommand.BuildReplyCommitCommand |
