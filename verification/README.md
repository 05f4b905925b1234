# A verified model of redeo

redeo is a server for the Redis serialization protocol (RESP2). This project models, in
Dafny 4.11, its protocol package `resp`, its per-connection session loop and its pub/sub
broker, and proves what they keep.

## How the model is built

**One stream, many consumers.** `Syntax.dfy`, `LazyCommands.dfy` and `Replies.dfy` say what a
request or a reply *is*, as functions of the unread byte sequence alone: no buffer, no
reads (`ParseCmd`, `ParseSkip`, `PeekName`, `ParseOpen`, `ParseReply`). `Readers.dfy`
models `bufioR` as a class over an array window `buf[r..w]` in front of a source; its
abstract state is the sequence `Unread() = buf[r..w] ++ rest of the source`. Every
operation's result, and what it leaves unread, are those of the parse of the old
`Unread()`, or an error that says so (`Readers.Agrees`): an error of the content, the end
of the source, or a failure of delivery.

**What the bytes mean.** Encoders and parsers are not only each other's inverses: both are
tied to independent descriptions. `Layout.dfy` describes RESP2 byte by byte, numbers by what
their text must be, and proves that a command has exactly one encoding and that it is the
one which is written. `Quoting.dfy` describes how an inline line may be written, with bare,
apostrophe and double-quoted tokens in any mixture, and proves that it is read as what it was
written for. `Verdicts.dfy` says what becomes of everything else: which headers are refused
with which error, what is passed over, and that a verdict never changes when more bytes come
in, so that a command cut short at any byte is neither read nor refused.

**When delivery fails.** An `io.Reader` that returns at least one byte or an error, and
never both, is a list of chunks and a final error (`Delivery.Source`). `PeekLine` fills
once and slices one byte past the CR; its result is `Reader.PeekedLine`, a function of the
window and of one Read. The ghost flag `Reader.faulty` is set exactly when that result is
`TooLong` or `Torn`, and when a bulk read is entered with one trailer byte left. Every
operation states what it does to the flag: one that ends with a single result sets it
exactly when that result is a failure of delivery; one that goes on past errors (`Discard`,
`Scan`) reports an error whenever it sets the flag, and is correct whenever the flag stays
clear. `Reader.Blame` alone sets the flag. A session derails exactly if it is set. So each
theorem holds of every run that delivery does not fail, whatever the chunks.

**Framed delivery** is a condition on the chunks under which it does not fail. The ghost
`Plan` of a reader names the chunk borders (`cuts`) and the border up to which the bytes
being worked on must fit the buffer (`low`); the code has no access to it. `ClearLine` asks
that no border falls between CR and LF, and that one Read completes the line: for a reader
that takes whole chunks (`seated`), one border may fall inside the line; where reads can
bypass the buffer and stop anywhere, none. `Framing.dfy` makes this a condition on the
commands and the chunk list that can be checked before the first byte is read, and shows
that a sender of whole commands, in writes no longer than the reader's buffer, meets it.
`Witnesses.HeaderInTwoChunks` shows a delivery that splits a header and meets it too.

**The heap.** `Command` recycles argument slots; its invariant (slots behind the last
argument are empty, no two slots share storage) is what makes recycling invisible and what
makes the inline tokenizer end. `bufioW` is a class whose abstract state is
`Wire() = already written ++ buffered`.

**Stream handlers.** A stream handler is an adaptive program (`Conducts.Conduct`): from all
that it has seen so far it decides whether to call Next, to Read into a buffer of some size,
or to return, which it may do in the middle of an argument or before the first.
`Conducts.Attend` runs it on a command stream. What it has seen at the end is true, is what
its own decisions lead to, and the rest of the command is left for `Discard`.

**Session.** `Server.Serve` is the session loop on top of all this. Its theorem: for every
list of commands, every handler table, every source and every sink, the log has one event
for each served command, in order (`Handlers.Accounts`): a call with the exact name and
arguments, or what the stream handler got to see of them. Written ++ buffered is the
in-order concatenation of the replies to the log wherever flushes fall, a flush fails only
if the replies are more than the sink takes, and the loop stands on a command boundary after
each turn, unless it derails. Under framed delivery it derails only at a command whose
handler makes a Read on the last byte of a trailer; where no chunk ends inside a command,
exactly there (`Server.Stuck`, `Server.Clean`). `SessionTurn` is the invariant step.

**Pub/sub.** `Broker.dfy` is a transition system over any number of threads with one step
for each atomic action; its theorems quantify over all runs. The last of them,
`Broker.Delivered`, joins the others: who has subscribed to a name is flushed to by every
publish under that name that begins its flushes later, unless an earlier one has failed to
reach it and evicted it. `PubSub.dfy` has the classes and proves each uninterrupted method to
be a run of that system.

## What turned out to be conditional

Where the code meets a property only under a condition, the condition is exact.
`Witnesses.dfy` has inputs that fail it.

- `PeekLine` returns the line iff the window, or the window and one Read, holds it with one
  byte behind its CR (`Reader.PeekedLine`). A header chunk that ends with the CR, or a
  header in two chunks of which the reader has none yet, is not returned
  (`Witnesses.TornHeader`, `Witnesses.LateHeader`). A full window without a CR is left
  unchanged, so a caller that tries again fails again.
- A bulk read entered with one trailer byte left returns a negative count. Where no chunk
  ends inside the bulk, reading it to its end with buffers of any sizes fails iff those
  sizes lead to its last byte (`Bulks.Drain`, `Bulks.HitBy`). For one size `k` that is so iff
  the payload with its trailer is one byte longer than a multiple of `k`, or `k` is 1
  (`Bulks.OneSize`, `Bulks.SplitHitExactly`); a 511-byte argument and a 512-byte buffer do it
  (`Witnesses.UnreadableArgument`). For a whole handler the condition is
  `Conducts.Suited`, or `Handlers.Hits` where no chunk ends inside the command.
- The end of the buffer tears a header as the end of a chunk does: one whose CR takes the
  last free byte is torn, though the whole command arrives in one chunk and each of its
  headers would fit (`Witnesses.TornByBuffer`). So framed delivery asks that the bytes being
  worked on fit the buffer, not just the header lines.
- Skipping makes the progress of reading iff no blank inline line comes first
  (`Syntax.SkipAgrees`, `Witnesses.BlankLineFirst`).
- Peeking names the command that is read next iff it is a multi-bulk, or an inline line
  whose first word has no quote and is not ended by VT or FF, or is behind a blank line and
  happens to have that line's first word for its name (`Syntax.PeekAgrees`,
  `Requests.PeekThenRead`, `Witnesses.QuotedName`).
- Reading lazily is reading eagerly except behind a blank line followed by a multi-bulk;
  then no argument is offered and all stay unread (`Conducts.ReadLazily`,
  `Witnesses.BlankLineFirst`).
- A one-line reply comes back as it was written iff it holds no CR and does not end in
  white space (`Replies.TextRoundTrip`), and a nested reply iff all its one-line texts do
  (`Replies.ReplyFaithful`).
- A size is read back iff it fits an int64; beyond that the parser wraps and accepts what
  comes out non-negative (`Lines.SizeWraps`).
- An inline line whose first token is empty is passed over with all its arguments
  (`Quoting.InlineRoundTrip`). The two bytes behind a bulk are dropped unseen, a nil is any
  line that begins with "$-1", and a lone minus is the integer 0 (`Verdicts.AnyTrailer`,
  `Verdicts.NilVerdict`, `Lines.IntVerdict`).
- A call of `appendArgument` makes no progress iff nothing is left or its slot is not empty
  and a quote comes next (`Tokens.ArgumentStuck`).
- A scan leaves the stream behind its reply iff every array of the reply meets a
  destination that takes all of it (`Scanning.Scan`, `Scanning.NothingLeft`).
- Two subscriptions of a channel share an id iff the number of subscribe calls between them
  is a multiple of 2^64 (`Broker.IdsRepeat`); registration safety holds up to 2^64 ids.
- `CopyBulk` on its direct path also succeeds with a source that ends early, and has then
  sent a bulk that is shorter than its header says; when its in-buffer path fails, the
  header stays pending in front of stale bytes (contract of `Writer.CopyBulk`). The doc
  comment of the method does not mention that it may stay in the buffer.
- A connection that a handler has closed still serves what is buffered: `Close` takes
  effect between pipelines (contract of `Server.Serve`).

## Model

| member | source | states |
|---|---|---|
| Decimal.ValueOfDigits | resp/bufio.go:591-595 | decimal text denotes the number it was written for |
| Decimal.WrapStep | resp/bufio.go:417-424 | one turn of the int64 accumulation loop is arithmetic modulo 2^64, however often it wraps |
| Decimal.WrapNegate | resp/bufio.go:380-390 | the final multiplication by -1 may wrap too and still gives the wrapped negative |
| Lines.Trim | resp/bufio.go:339-347 | the longest prefix that does not end in white space, unique as such |
| Lines.FirstWord | resp/bufio.go:350-369 | the loop finds the first maximal run of non-blanks of the trimmed line |
| Lines.ParseSize | resp/bufio.go:406-429 | the loop accepts exactly prefix and digits whose value modulo 2^64 is a non-negative int64, with the error of each failing case |
| Lines.ParseInt | resp/bufio.go:372-391 | the loop computes the signed value modulo 2^64, a minus sign only in front, with the error of each failing case |
| Lines.SizeRoundTrip | resp/bufio.go:591-595 | ParseSize inverts appendSize for every size from 0 to the largest int64 |
| Lines.IntRoundTrip | resp/bufio.go:505-518 | ParseInt inverts AppendInt for every int64, the minimum included |
| Lines.SizeWraps | resp/bufio.go:417-428 | a written size is read back iff it fits an int64, and accepted iff its residue does |
| Lines.MessageOfLine | resp/bufio.go:394-403 | a message comes back without its trailing white space |
| Lines.SizeVerdict | resp/bufio.go:406-429 | what any header line is worth: a byte that is no digit behind its prefix, a minus too, is refused with the fallback; digits count modulo 2^64; an empty line and a wrong prefix have errors of their own |
| Lines.IntVerdict | resp/bufio.go:372-391 | what any integer line is worth: any byte that is no digit, but for one minus in front, is refused; else the int64 congruent to the signed value |
| Lines.MessageVerdict | resp/bufio.go:394-403 | a message is refused for an empty line or a wrong first byte only |
| Layout.DigitsCanonical | resp/bufio.go:591-595 | a text is the one written for a number iff it has that value, digits only and no leading zero |
| Layout.FormatCanonical | resp/bufio.go:505-518 | the same for integers, with a minus for the negative ones |
| Layout.SizeLineOnWire | resp/bufio.go:591-595 | a line is what appendSize writes iff it is prefix, canonical decimal text and CR LF |
| Layout.BulkOnWire | resp/bufio.go:455-461 | bytes are what AppendBulk writes iff they are "$", the length, CR LF, the payload and CR LF |
| Layout.RequestIsCmd | resp/request.go:153-159 | bytes are what WriteCmd writes iff they are "*", the count, CR LF and one bulk each for name and arguments |
| Tokens.AppendArgument | resp/util.go:6-70 | the loop computes the token and the number of bytes used, never past the end of the line |
| Tokens.Scan | resp/util.go:13-69 | a token uses no more bytes than there are and appends no more bytes than it uses |
| Tokens.ArgumentStuck | resp/util.go:6-70 | a call uses no byte iff nothing is left, or its slot is not empty and a quote comes next |
| Quoting.ScanQuoted | resp/util.go:17-40 | between double quotes each byte is read as what it was written for, in any mixture of raw bytes, hex, escape letters and idle backslashes |
| Quoting.ScanLiteral | resp/util.go:41-46 | between apostrophes nothing is special, backslashes neither |
| Quoting.ArgumentOfText | resp/util.go:6-70 | a token of any of the three forms is read as its meaning in front of anything that ends it |
| Quoting.UnclosedQuote | resp/util.go:17-40 | a double quote that is not closed runs to the end of the line |
| Quoting.UnclosedApostrophe | resp/util.go:41-46 | and so does an apostrophe |
| Quoting.TokensOfWords | resp/command.go:126-130 | a run of tokens in any mixture of the three forms is cut into exactly those tokens |
| Quoting.InlineRoundTrip | resp/command.go:109-134 | a line of bare, apostrophe and double-quoted tokens in any mixture is read as the command they mean, and as nothing iff the first is empty |
| Syntax.CmdRoundTrip | resp/request.go:153-169 | the request parser inverts the request writer for arbitrary byte strings, and stops right behind |
| Syntax.RequestRoundTrip | resp/request.go:153-169 | repeated parsing of any list of written commands gives that list and leaves nothing |
| Syntax.BulksRoundTrip | resp/bufio.go:455-461 | written bulks are parsed back as the same byte strings |
| Syntax.SkipAgrees | resp/request.go:58-83 | skipping makes exactly the progress of reading, errors included, iff no blank line comes first; behind one it stops earlier |
| Syntax.FirstWordAgrees | resp/bufio.go:350-369 | the first word is the first token iff it has no quote and is not ended by VT or FF |
| Syntax.PeekAgrees | resp/request.go:85-120 | which name peeking gives, on every stream with a next command; it is the name that reading yields iff that is a multi-bulk or a plain inline line, or is behind a blank line with that first word |
| Verdicts.CmdExtends | resp/command.go:138-170 | what a stream has been read as, a command or an error, does not change when more bytes come in |
| Verdicts.CutShort | resp/request.go:36-44 | a written command that is cut short at any byte is neither a command nor an error |
| Verdicts.CountRefused | resp/bufio.go:92-102 | a multi-bulk count that is no number is a protocol error, whatever follows |
| Verdicts.LengthRefused | resp/bufio.go:104-110 | a bulk length that is no number, a negative one too, is a protocol error at any place in a command |
| Verdicts.PrefixRefused | resp/bufio.go:408-413 | a bulk that does not begin with "$" is a protocol error that names the byte |
| Verdicts.EmptyInFront | resp/command.go:138-170 | empty multi-bulks and blank lines in front of a command change nothing |
| Verdicts.AnyTrailer | resp/bufio.go:112-126 | the two bytes behind a payload are dropped whatever they are |
| Verdicts.NilVerdict | resp/bufio.go:57-66 | a nil is any line that begins with "$-1", and nothing else |
| Verdicts.TypeVerdict | resp/bufio.go:30-55 | which byte begins which reply |
| Delivery.Read | resp/bufio.go:268-278 | a Read moves bytes from the front of the source and returns at least one byte or an error, never both |
| Delivery.ReadKeepsPlan | resp/bufio.go:268-278 | reading stays on the chunk borders and does not run past the border that the buffer reaches |
| Readers.Reader.Compact | resp/bufio.go:281-287 | moves the window to the front and changes no unread byte |
| Readers.Reader.Fill | resp/bufio.go:269-278 | adds one Read to the window, changes no unread byte |
| Readers.Reader.ReadAtLeast | resp/bufio.go:256-259 | succeeds iff the wanted bytes arrive, keeps all that did; the end of the source behind some bytes is unexpected, any other error passed on |
| Readers.Reader.Require | resp/bufio.go:240-260 | succeeds iff the stream holds that many bytes, which are then buffered; unread bytes never change, even on failure |
| Readers.Reader.PeekByte | resp/bufio.go:23-28 | the first unread byte, iff there is one |
| Readers.Reader.PeekType | resp/bufio.go:30-55 | the reply type that the first one or two unread bytes decide |
| Readers.Reader.PeekLine | resp/bufio.go:200-225 | returns the line iff the window, or it and one Read, holds it; then it is the line of the stream; the delivery has failed exactly if it is too long or torn; a jammed window stays as it is |
| Readers.Reader.ReadLine | resp/bufio.go:228-232 | removes the prefix through the first CR and one byte more, or nothing |
| Readers.Reader.ReadArrayLen | resp/bufio.go:92-102 | agrees with the header parser on the unread stream |
| Readers.Reader.ReadBulkLen | resp/bufio.go:104-110 | agrees with the header parser on the unread stream |
| Readers.Reader.ReadBulk | resp/bufio.go:112-126 | appends exactly the payload to the slice, consumes payload and trailer; on an error the slice is as before |
| Readers.Reader.ReadBulkString | resp/bufio.go:137-151 | agrees with the bulk parser on the unread stream |
| Readers.Reader.SkipBulk | resp/bufio.go:153-159 | consumes exactly what ReadBulk would, partly past the buffer |
| Readers.Reader.SkipN | resp/bufio.go:161-190 | removes exactly that many bytes iff there are so many, through the buffer or past it |
| Readers.Reader.PeekN | resp/bufio.go:192-197 | the unread bytes at an offset, nothing consumed |
| Readers.Reader.StreamBulk | resp/bufio.go:128-135 | leaves the stream at the payload and knows its length with the trailer |
| Readers.Reader.ReadInt | resp/bufio.go:68-74 | agrees with the integer parser on the unread stream |
| Readers.Reader.ReadNil | resp/bufio.go:57-66 | agrees with the nil parser on the unread stream |
| Readers.LineOfStream | resp/bufio.go:205-224 | a line found in the window is the line of the stream |
| Readers.LineInVerdict | resp/bufio.go:200-225 | the window holds a line iff a CR is in it that is not its last byte |
| Readers.Reader.NoLine | resp/bufio.go:209-223 | without a CR: a source at its end gives its error, a full buffer "too big" |
| Readers.ClearLineBuffered | resp/bufio.go:209-218 | under a clear plan the window holds the whole line, or its CR is still ahead and the next border is behind the line |
| Slices.Append | resp/bufio.go:122 | Go's append: in place or into new storage, the contents the same |
| Bulks.BulkReader.Read | resp/bufio.go:300-321 | hands out the next bytes of the bulk; the count is the number of payload bytes unless it is entered with one byte left, when it is negative and the delivery has failed |
| Bulks.BulkReader.Close | resp/bufio.go:324-332 | consumes exactly what is left of the bulk, iff it is there |
| Bulks.ReadsThenClose | resp/bufio.go:300-332 | any Reads of any sizes and a successful close consume exactly the bulk; what was delivered is a prefix of the payload, and all of it at the end |
| Bulks.Drain | resp/bufio.go:300-321 | reading to the end with buffers of any sizes, each Read with its own, gives exactly the payload unless the negative count shows up; where no chunk ends inside the bulk, that happens iff the sizes lead to its last byte |
| Bulks.OneSize | resp/bufio.go:316-319 | buffers of one size lead to the last byte iff stepping down by that size does |
| Bulks.SafeAtHand | resp/bufio.go:300-321 | a bulk that no cut can interrupt is safe iff its sizes do not lead to its last byte |
| Bulks.SplitHitExactly | resp/bufio.go:316-319 | reading in pieces stops on the last trailer byte iff the length is one more than a multiple of the piece, or the piece is one byte |
| Bulks.SplitAt511 | resp/bufio.go:316-319 | a 511-byte argument read with a 512-byte buffer is such a case |
| Commands.Command.Reset | resp/command.go:63-69 | empties every slot and keeps its storage |
| Commands.Command.Grow | resp/command.go:86-93 | makes room; new arguments are empty, recycled or not |
| Commands.Command.ReadMultiBulk | resp/command.go:95-107 | fills the arguments with exactly the bulks of the stream, whatever storage is recycled |
| Commands.Command.ReadInline | resp/command.go:109-134 | name and arguments are the tokens of the line; false exactly for a line without a name |
| Commands.Command.ReadTokens | resp/command.go:126-130 | the loop ends, and the arguments are the tokens of the rest of the line |
| Commands.BulksStep | resp/command.go:99-106 | what one more bulk does to a run of bulks, for better or worse |
| Requests.ReadCommand | resp/command.go:138-170 | agrees with the command parser whatever storage the command brings; ends on any run of empty commands; never fails under framed delivery |
| Requests.ReadCmd | resp/request.go:36-44 | recycling is invisible: on any command, a failed one included, the result is that of the parser, and the recycling invariant is kept |
| Requests.SkipCmd | resp/request.go:58-83 | agrees with the skipping parser on the unread stream |
| Requests.PeekCmd | resp/request.go:31-33 | agrees with the peeking parser and consumes nothing |
| Requests.PeekCmdAt | resp/request.go:85-120 | the same at any offset behind empty multi-bulks, with recursion that ends |
| Requests.PeekThenRead | client.go:95-102 | the name peeked is the name read next iff peeking is faithful there |
| LazyCommands.OpenAgrees | resp/command.go:138-170 | opening a command lazily and then reading all its arguments is reading it eagerly |
| LazyCommands.CommandStream.Next | resp/command.go:240-260 | hands out the next argument, of exactly the next bulk; does not discard the previous one |
| LazyCommands.CommandStream.Discard | resp/command.go:200-224 | consumes the rest of the last argument and all arguments that were not handed out; where delivery does not fail, it succeeds iff they are there |
| LazyCommands.OpenCommand | resp/command.go:138-170 | opens what the parser opens; counts as inline exactly for an inline command or behind a blank line |
| LazyCommands.StreamCmd | resp/request.go:47-55 | the same with a recycled command stream |
| Conducts.Attend | resp/command.go:240-260 | a handler that calls Next, Reads in any sizes and returns when it likes, all by what it has seen, sees true pieces of the arguments in order and leaves the rest of the command unread; it fails only where delivery does; under framed delivery only by a Read on the last byte of a trailer, and where no cut falls inside exactly then |
| Conducts.SuitedAlone | resp/bufio.go:316-319 | whether a handler makes such a Read does not depend on what comes behind the arguments |
| Conducts.DrainingSuits | resp/bufio.go:300-321 | a handler that reads the first arguments to their ends makes no such Read iff each of them is safe with its sizes |
| Conducts.DrainingSent | resp/bufio.go:316-319 | of arguments as they are sent: iff the sizes lead to the last byte of none |
| Conducts.DrainingOneSize | resp/bufio.go:316-319 | with one buffer size for all: iff no argument is, with its trailer, one byte longer than a multiple of it |
| Conducts.ReadLazily | resp/command.go:240-260 | reading every argument through Next, in Reads of any sizes, gives the command that ReadCmd would give, except behind a blank line before a multi-bulk, where none is offered; it fails only where delivery does, and not where the sizes suit the arguments |
| LazyCommands.StreamAndDiscard | resp/command.go:200-224 | StreamCmd and Discard leave unread exactly what ReadCmd leaves, and fail on a whole command only where delivery does |
| Writers.Writer.AppendSize | resp/bufio.go:591-595 | extends the wire by exactly prefix, canonical decimal text and CR LF |
| Writers.Writer.AppendBulk | resp/bufio.go:455-461 | extends the wire by exactly the encoded bulk |
| Writers.Writer.AppendInt | resp/bufio.go:505-518 | extends the wire by exactly the integer line, its short cuts for 0 and 1 included |
| Writers.Writer.AppendError | resp/bufio.go:491-497 | extends the wire by exactly the error line |
| Writers.Writer.Flush | resp/bufio.go:578-589 | leaves the wire unchanged and nothing pending, or keeps all that was pending |
| Writers.Writer.CopyBulk | resp/bufio.go:536-563 | on both paths consumes exactly n source bytes and extends the wire as AppendBulk of them; what a source that ends early leads to; what is pending after a failure |
| Writers.Writer.CopyBuffered | resp/bufio.go:541-549 | the in-buffer path succeeds iff the source holds n bytes; otherwise what came and stale storage are pending |
| Writers.Writer.CopyDirect | resp/bufio.go:554-560 | the direct path copies through the buffer in order and loses nothing; when it succeeds |
| Pipelines.WriteCmd | resp/request.go:153-159 | extends the wire by exactly the one request that the command has |
| Pipelines.ReadAll | resp/request.go:36-44 | repeated ReadCmd with one recycled command gives the commands of the stream in order, then its end |
| Pipelines.ReadAllSent | resp/request.go:36-44 | repeated ReadCmd gives a prefix of the commands to come before delivery fails, or all of them and the end with nothing unread; all, where the delivery is framed |
| Pipelines.Exchange | resp/request.go:146-169 | commands written and flushed at any points are sent iff the connection takes them all; however the network cuts, a prefix of them is read before delivery fails, or all of them and the end; all, where the chunks are framed |
| Pipelines.SendAll | resp/request.go:146-159 | flushing at any points succeeds iff the sink takes everything, which is then written in order |
| Framing.UncutIsFramed | resp/bufio.go:200-225 | chunks that end between commands are framed delivery |
| Framing.BatchesUncut | resp/bufio.go:200-225 | a sender of whole commands in writes of at most the buffer size delivers framed |
| Framing.InlineLineRoundTrip | resp/command.go:109-134 | an inline line in front of any stream is read as its command and nothing more |
| Framing.ClearInline | resp/bufio.go:200-225 | and is framed if no chunk border falls into it |
| Handlers.ConsumersOfSent | resp/request.go:30-83 | at a sent command, reading, skipping, peeking and opening see the same name and end |
| Handlers.ArgsRoundTrip | resp/command.go:240-260 | the first arguments of a sent command are read as such, and the others from where those end |
| Handlers.AccountsSnoc | server.go:96-116 | what one more command adds to the log, to the replies and to the decision to close |
| Handlers.ClosesExactly | server.go:119-141 | the client is closed iff the handler of a served command closes it; an unknown command never does |
| Handlers.RepliesExactly | server.go:127-141 | the replies are what the handlers append, and for each unknown command the bytes of its error line, in order |
| Handlers.RanOn | server.go:119-157 | one more command served continues a session that is as it should be: log, replies, closing and failed flushes |
| Handlers.HitsAlone | resp/bufio.go:316-319 | whether the handler of a sent command makes a Read on the last byte of a trailer does not depend on what comes behind the command |
| Clients.PerformUnknown | server.go:127-131 | the error line and nothing else is sent, the client stays open, and the command is skipped |
| Clients.PerformPlain | server.go:137-141 | the handler is called once, with the exact command |
| Clients.PerformStream | server.go:143-149 | the handler sees what it reads of the arguments and may return anywhere; the rest is discarded up to the next command; on a planned delivery it derails only at a Read on the last byte of a trailer |
| Clients.Perform | server.go:119-157 | dispatch by lower-cased name; one event and one reply appended; the next command is unread; derails iff delivery fails |
| Server.Turn | client.go:95-107 | one turn of the pipeline: peek, dispatch, serve |
| Server.Pipeline | client.go:95-107 | ends with nothing buffered, at least one command on, or with the error of the one it stopped at |
| Server.SessionTurn | server.go:81-117 | the session invariant: after each turn the stream stands on a command boundary and log and replies are those of the served commands, unless delivery has failed |
| Server.Serve | server.go:81-117 | whole-session correctness: every command before the end or a close served once, in order; sent is exactly what the handlers append and the error lines of unknown commands, in order, wherever flushes fall; closed iff a handler closes it; stream handlers may read and return as they like; it derails iff delivery fails the reader; under framed delivery only at a command whose handler makes a Read on the last byte of a trailer |
| Server.ServeConnection | server.go:61-117 | any chunks: the client gets exactly the replies to what is served. Where it sends whole commands in writes no longer than the buffer, the session derails at the first command whose handler makes a Read on the last byte of a trailer, and only there |
| Replies.Append | resp/value.go:11-81 | extends the wire by exactly the encoding of a value of any depth |
| Replies.EncodedOnWire | resp/value.go:11-81 | the bytes of a value of each kind, at any depth: arrays of their elements, maps of keys and values in turn |
| Replies.ErrorOnWire | resp/value.go:18-23 | an error text that has the prefix is sent as it is, any other with the prefix once |
| Replies.ParseResult | redeotest/redeotest.go:77-114 | agrees with the reply parser on the unread stream; never fails under framed delivery |
| Replies.ParseItems | redeotest/redeotest.go:103-110 | the loop reads exactly the elements of the array |
| Replies.TextRoundTrip | resp/bufio.go:394-403 | a one-line text comes back iff it holds no CR and no trailing white space |
| Replies.ReplyRoundTrip | resp/value.go:11-81 | decoding the encoding of any supported value, followed by anything, gives the value and leaves what follows |
| Replies.ReplyFaithful | resp/value.go:11-81 | and it does so for no other value |
| Replies.ClearEncoded | redeotest/redeotest.go:77-114 | an encoded reply that no chunk border falls into is framed |
| Replies.Responses | redeotest/redeotest.go:61-75 | replies are parsed until the source ends: all that were encoded, or those before a failure of delivery |
| Replies.Record | redeotest/redeotest.go:61-75 | values appended, flushed and decoded until the end come back in order; sent iff the sink takes them all; whole, where they fit the buffer |
| Scanning.Scan | resp/scan.go:25-84 | where delivery does not fail, consumes exactly the reply iff it fits its destination; what fits is stored, and the first error is reported; into nil, the report is right even where it stops early |
| Scanning.ScanArray | resp/scan.go:86-124 | the same behind an array header: nil, a slice, or a destination that takes no array |
| Scanning.ScanIgnored | resp/scan.go:90-97 | into nil the loop ends at the first error and leaves what is behind it |
| Scanning.ScanSlice | resp/scan.go:106-124 | every element is scanned even when others fail; failing elements keep their values; the first error is returned |
| Scanning.ScanValues | resp/scan.go:16-23 | ends behind the first reply that reports an error |
| Scanning.IgnoredReport | resp/scan.go:90-97 | scanning into nil reports no error iff the reply holds no error at any depth |
| Scanning.ReportTaken | resp/scan.go:25-149 | no error is reported iff no leaf is an error and each is taken by the conversion of the variable it goes to |
| Scanning.ReportFirst | resp/scan.go:113-124 | what is reported is the error of the first reply that is not all taken |
| Scanning.StoredElements | resp/scan.go:106-124 | a slice that grows keeps its elements; each reply sets its own; a failing one leaves what was there |
| Scanning.OutcomeOfPlain | resp/scan.go:52-84 | a scan of a plain reply sets its variable to the converted value iff there is one, and else reports an error and keeps the old value |
| Scanning.OutcomeTaken | resp/scan.go:25-149 | a scan of a reply that fits, or into nil, reports no error iff everything of the reply is taken |
| Scanning.OutcomeOfSlice | resp/scan.go:106-124 | what a scan into a slice has stored, element by element |
| Scanning.NothingLeft | resp/scan.go:25-84 | nothing of the reply is left unread iff it fits |
| Scanning.PlainArrayFits | resp/scan.go:106-124 | an array of replies that are no arrays fits any slice |
| Broker.ChannelsForGood | pubsub.go:61-76 | in every run there is one channel object a name, and a name keeps its channel |
| Broker.InvKept | pubsub.go:50-130 | every step of every thread keeps the invariant of the broker |
| Broker.IdsRepeat | pubsub.go:92-98 | ids grow by one a call, modulo 2^64: two are the same iff a multiple of 2^64 calls lies between |
| Broker.FreshTicket | pubsub.go:93 | the next id was not given out before |
| Broker.StaysRegistered | pubsub.go:92-130 | in every run a finished subscription stays registered until a publish evicts it whose own flush to it has failed |
| Broker.NobodyJoins | pubsub.go:103-115 | while a publish holds the read lock its subscribers stay the same |
| Broker.ReachesAll | pubsub.go:100-122 | a publish flushes once to each subscriber it found; reached and failed are all of them |
| Broker.EvictsOnlyFailed | pubsub.go:124-130 | eviction removes the failed ids and nobody else, even who joined since the flushes |
| Broker.CallByName | pubsub.go:50-82 | in every run, from the look-up of a name to the end of the call, a thread has the channel of that name in hand |
| Broker.SubscribesByName | pubsub.go:61-82 | in every run a subscription ends up with the channel of its name, where another thread has created it in between too |
| Broker.PublishesByName | pubsub.go:50-59 | in every run a publish locks, flushes and evicts at the channel of its name and touches no other |
| Broker.Delivered | pubsub.go:50-130 | in every run a finished subscription is flushed to by each later publish under its name, unless an earlier one has failed to reach it and evicted it |
| PubSub.PubSubChannel.Publish | pubsub.go:100-122 | counts the subscribers it reaches and evicts exactly the others |
| PubSub.PubSubBroker.Subscribe | pubsub.go:61-82 | uninterrupted, it is the run of lookup, creation, id and registration |
| PubSub.PubSubBroker.PublishMessage | pubsub.go:50-59 | uninterrupted, it is the run of lookup, flushes and eviction; 0 for an unknown name |
| PubSub.PublishRun | pubsub.go:100-130 | a whole publish leaves the reached subscribers registered and no others |
| PubSub.SubscribeRun | pubsub.go:61-82 | a whole subscribe adds one subscription, to the old channel or to a new one |
| Witnesses.BlankLineFirst | resp/request.go:64-67 | a blank line before any command: skipping stops short, peeking names nothing, a command stream offers no arguments, reading gets the command |
| Witnesses.QuotedName | resp/bufio.go:350-369 | a quoted name is peeked with its quotes and read without |
| Witnesses.TornHeader | resp/bufio.go:224 | a chunk that ends with the CR of a header tears the line |
| Witnesses.LateHeader | resp/bufio.go:210-223 | a header in two chunks, both to be fetched, is reported as too long |
| Witnesses.UnreadableArgument | resp/bufio.go:316-319 | a buffered 511-byte argument cannot be read with a 512-byte buffer |
| Witnesses.TornByBuffer | resp/bufio.go:209-224 | a command longer than the buffer, all of it in one chunk, has a header torn by the end of the buffer |
| Witnesses.HeaderInTwoChunks | resp/bufio.go:210-218 | a chunk that ends inside a header is framed where the next one completes it |

## Left out

- Server.Serve: covers streams of well-formed multi-bulk commands. Recovery after a protocol error (server.go:103-110, client.go:97-101) is best effort in the code and not modelled; after a failure of delivery the model stops (`Derailed`). Framed delivery is sufficient for none to occur but for Reads on the last byte of a trailer, not necessary; `faulty` is the exact account of a run. A seated delivery plan, the one that lets a chunk end inside a header, is for sessions of command handlers only, since skips and stream handlers can leave the reader between borders.
- Clients.Perform: a handler is a function of the connection's history that appends one byte string, may flush and may close; it does not hold on to the writer. `strings.ToLower` and the texts of errors are parameters, and the handler table, keyed by lower-cased names, is fixed.
- Conducts.Attend: a handler calls Next only while there are arguments and after it has read the last one to its EOF, since Next does not close it (resp/command.go:256-259); a Next beyond the last argument, Reads into an empty buffer or after an EOF, and Close called through io.Closer are not modelled. A handler whose source runs dry inside an argument is not followed any further.
- Clients.PerformStream: what its handler sees besides the arguments is the history of the connection; it reads from the stream by Next and Read alone.
- Readers.Reader.PeekLine: where the CR is the last buffered byte the code slices a byte that it never read, or panics; the model reports `Torn` and stops there.
- Bulks.BulkReader.Read: what a caller does with a negative count is outside the model (`Split`).
- Readers.Reader.ReadBulk: a size whose sum with the trailer leaves int64 is reported as `Overflow`; the code computes with the wrapped number.
- Writers.Writer.CopyBulk: n + 2 fits an int64. A sink fails once and for all. The source's last error comes alone, never with bytes.
- Slices.Append: capacity after growth is twice the length; the runtime's policy is not modelled. Memory is unbounded.
- Commands.Command.Grow: as above; a nil command, for which ReadCmd makes a new one, is one made by the constructor.
- Replies.Append: floats enter as their decimal text, map entries in the order in which the map is iterated; values that implement their own encoding and values of unsupported kinds are not modelled.
- Replies.Record: what was recorded arrives in one chunk, and reading stops at a failure of delivery.
- Scanning.Scan: conversions (scanNil, scanString, scanInt, scanValue) are one arbitrary function that succeeds or fails on a reply that is already consumed. Map destinations, values that scan themselves, and an array scanned into a byte slice are not modelled.
- Broker.StaysRegistered: a section under a write lock is one step, and so is a look-up under a read lock. The frames of messages and of the subscribe reply are not modelled, nor is their contiguity, for each append takes the writer's lock for itself.
- Broker.FreshTicket: up to 2^64 ids of one channel.
- PubSub.PubSubChannel.Publish: which connections can be flushed, and the order in which the map is iterated, are parameters; the argument-count check of the two handlers (pubsub.go:25-46) is left out.
- Sockets, listeners, deadlines, keep-alive, pooling of readers and writers, goroutine start-up (server.go:63-79, client.go:109-136): a connection is a chunk list and a sink.
- Contexts (client.go:43-66, resp/command.go:72-84): no property rests on them.
- The writer's mutex: a writer is used by one session.
- The `client` package, `info`, configuration and the one-branch handlers of redeo.go would only add easy members.
