# Verified model of fsmtp-v2

fsmtp-v2 is a mail system: an SMTP server and client, POP3 and IMAP front ends, DKIM signing and
validation, and a store of two Cassandra tables with counters cached in Redis. This project models
its protocol and text logic in Dafny and proves what the parts promise each other.

`dafny verify dfyconfig.toml` checks everything.

## How it is built

Every part comes in three layers. A *specification* says in functions what a piece of code computes.
*Methods and classes* follow the imperative code - the same loops, fields, branches and fall-through -
and are proved against it. *Laws* about the specification state what the code is for.

- Text pipeline: `Text`, `TextWords`, `Mime`, `Builders`, `FoldingLaws`, `Unfolding`, `Addresses`, `Decimal`,
  `QuotedPrintable`, `Multipart`, `MimeTree`.
- DKIM: `DkimHeader`, `DkimCanonicalization`, `DkimSigner`, `DkimValidator`; `BodyLaws`,
  `DkimAgreement`, `DkimLimits`, `DkimSigning`, `DkimResigning` and `DkimVerdicts` hold the theorems. Signer and
  validator take different routes through the string functions; the theorems say exactly when they end at
  the same bytes, and `DkimVerdicts` what a signature vouches for when the message is changed on its way.
- SMTP: `SmtpCommand` is the wire format, `SmtpClientSession`, `SmtpClient` and `SmtpClientLoop` the
  sending side against an adversarial server, `SmtpServerSession`, `DataText`, `SmtpServer` and
  `SmtpServerLoop` the receiving side against an adversarial client, `SmtpJoint`, `SmtpDelivery` and
  `SmtpSlip` the two against each other. `SmtpClientAnswers` says which replies the client takes for an
  answer, `SmtpRights` where the rights of a session come from, `SmtpAnswers` what the server replies and
  what becomes of a message. `BitMask` is the bit test all sessions use.
- Hand-over: `WorkerQueue` is the queue between connections and workers; `SmtpHandOver` lets the
  workers read the session they share with a connection at any moment.
- Store: `MailStore`, `Pop3`, `Pop3Server`, `Storage`, `StorageWorker`; `Pop3Lines` has the laws of a POP3 session
  told by the lines of the client; `MailFlow` follows a mail from the sending client into the tables and
  out of them.
- IMAP arguments: `ImapLexer`, `ImapParser`, `ImapParserLoop`.

`Outcome` is what a call of the original ends in: a value (`Done`), an exception (`Throws`), or an
operation the language leaves undefined (`Undefined`), such as an iterator that was never assigned.

## Where the code does not do what it means to

Behind each of these stands a theorem or a contract of the model, with the exact condition where there is one.

- A tag value with "b=" in front of the signature tag makes the validator cut the header in the wrong
  place (`DkimAgreement.RelaxedAgreement`); with simple headers, so does any signed header that is not
  yet in normal form (`DkimLimits.SimpleAgreement`). Signing a message that has a signature signs the
  old header: the new signature is reported Invalid unless it repeats the old header, and the overview
  is that of the first old signature (`DkimLimits.OldSignatureIsSigned`,
  `DkimResigning.ResignedIsReported`).
- The comment on the validator's overview speaks of one or more valid signatures; the code looks at
  the first one only, and the model follows the code (`DkimValidator.Validator.ValidateMessage`).
- A signature without a tag c is taken for relaxed/relaxed, where section 3.5 of RFC 6376 says
  simple/simple (`DkimHeader.AnyHeaderReads`).
- An answer of 354 behind the body, which completes nothing, is taken for a delivery; a positive completion
  was read there exactly if it was not 354 (`SmtpClientAnswers.BodyIsTakenFor`,
  `SmtpClientAnswers.TransactionIsAnswered`).
- The client writes HELO to a server that does not say ESMTP and then reports an error
  (`SmtpClient.PlainServerIsRefused`).
- RCPT TO is answered with 250 behind DATA too, when the session is in the queues already. Such a
  recipient gets the mail only if his worker was given the session and reads it later
  (`SmtpHandOver.WhoIsMissed`); in a session that was judged spam he then gets it into his inbox
  (`SmtpHandOver.SpamInTheInbox`).
- A failed read that leaves 221 or 250 in the client's variable lets it speak out of turn exactly if
  the server had not carried out the MAIL FROM or RCPT TO before (`SmtpJoint.OrderException`,
  `SmtpSlip.LeftoverCode`).
- The POP3 server deletes on every end of a session, not only on QUIT (`Pop3Lines.DeletedByLines`).
- A UID is given twice exactly if a delivery finds the counter lost while the owner's mail with the
  highest UID is deleted (`Storage.UidsNeverRepeat`, `Storage.UidIsReused`).
- The unseen count of a mailbox is too high by the unseen mails deleted over POP3 since it was cached
  (`Storage.DeletionLeavesTheCount`), and a loss of the cache takes all deliveries since then off its
  total (`Storage.TotalIsForgotten`).
- Reading a status is meant to clear its recent count, but `clearRecent` writes a sixth field that
  nobody reads: the count is right exactly if nothing was delivered between the caching of the status
  and its last read (`Storage.RecentIsNotCleared`, `Storage.ReadMailStaysRecent`).
- A message that holds the terminator ends there, and the rest of it is read as commands
  (`SmtpJoint.RestIsCommands`).
- The worker's queue is a stack: UIDs follow the arrival of the mails exactly if no two waiting
  sessions hold mail for the same owner (`StorageWorker.ArrivalOrder`).
- The hexadecimal encoder of strings writes the halves of an octet in the order the decoder does not
  expect (`Hex.StringRoundTrip`).
- A trailing space swallows the line break behind it in quoted-printable text
  (`QuotedPrintable.QuotedPrintableRoundTrip`).

## Model

| member | source | states |
|---|---|---|
| Addresses.ReduceWhite | lib/general/cleanup.src.cc:21-44 | The whitespace-reducing loop with its `lww` flag, then the trim of one space at each end, computes the two-step specification |
| Addresses.WriteAddressList | lib/models/Email.src.cc:113-130 | The writing loop produces the written list of the specification |
| Addresses.ReadAddressList | lib/models/Email.src.cc:90-111 | The character loop cuts at the commas outside double quotes, parses each piece, throws if one is no address, and ignores an empty last piece |
| Addresses.AddressComesBack | lib/models/Email.src.cc:46-88 | A written address, with or without a space in front, parses back to its name and address |
| Addresses.ParsesIf | lib/models/Email.src.cc:46-88 | A text is taken for an address exactly if it has an '@' and a '.', and both angle brackets or none; without brackets all of it is the address |
| Addresses.AddressListRoundTrip | lib/models/Email.src.cc:46-130 | Parsing a written list gives the list back, for names without quotes, angle brackets or double spaces (commas allowed) and plain addresses |
| Mime.GetMimeLines | lib/mime/mimev2.src.cc:460-471 | The `getline` loop delivers the lines of the text, each without one trailing CR, and no line for a final LF |
| Mime.GetStringFromLines | lib/mime/mimev2.src.cc:476-484 | Every line followed by CRLF |
| Mime.LinesOfUnlines | lib/mime/mimev2.src.cc:460-484 | Writing lines and splitting again gives the same lines, in front of the lines of any text that follows |
| Mime.UnlinesInjective | lib/mime/mimev2.src.cc:476-484 | Different line lists are written differently |
| Mime.SplitMimeBodyAndHeaders | lib/mime/mimev2.src.cc:66-94 | The header block ends at the first empty line, the body begins at the first non-empty line behind it; an iterator that is never assigned is None |
| Mime.SectionsFound | lib/mime/mimev2.src.cc:66-94 | A header block, at least one empty line and a body are found again at exactly their places |
| Mime.JoinHeaderLines | lib/mime/mimev2.src.cc:106-138 | The joining loop depends on the header lines only, although it looks at the line behind them |
| Mime.JoinHeadersAppend | lib/mime/mimev2.src.cc:106-138 | Joining distributes over a cut in front of a line that starts a header |
| Mime.ParseJoinedHeaders | lib/mime/mimev2.src.cc:140-202 | The header loop: key and reduced value of every line, and an exception for a line without a colon |
| Mime.HeaderIsRead | lib/mime/mimev2.src.cc:140-202 | A header line is read exactly if it has a colon, as the words in front of the first one and the words behind it, one space apart, with a space kept at the end |
| Builders.FoldHeader | lib/builders/mimev2.src.cc:20-119 | The nested folding loops write the physical lines of the specification, joined by CRLF, and throw without a colon |
| Builders.BreakSegment | lib/builders/mimev2.src.cc:66-104 | The inner loop breaks a segment into pieces of the right lengths and indents, and leaves the right line length behind |
| FoldingLaws.FoldedLinesAreShort | lib/builders/mimev2.src.cc:39-118 | Without empty or blank segments, from width 8 on, no physical line is longer than width + 2 |
| FoldingLaws.FoldingConserves | lib/builders/mimev2.src.cc:39-118 | Folding changes nothing but spaces and line breaks exactly if no segment behind the first is empty |
| Unfolding.UnfoldUndoesFold | lib/builders/mimev2.src.cc:20-119 | Folding a header of solid segments and joining its lines gives the header back (section 2.2.3 of RFC 5322) |
| Unfolding.HeaderBlockRoundTrip | lib/smtp/server/handlers/data.src.cc:233-239 | A whole header list, folded at a width and written in front of a body, is split, joined and read back: the same headers, the same body, and one empty line more than the separator |
| Decimal.StolOfToString | lib/dkim/DKIMHeader.src.cc:121-133 | Reading a printed 64-bit number gives the number back |
| DkimHeader.BuildHeaderFromSegments | lib/builders/mimev2.src.cc:121-135 | The loop writes the name and the tags, separated by "; " |
| DkimHeader.SignatureHeader.ParseValue | lib/dkim/DKIMHeader.src.cc:49-134 | The parser changes the fields as the specification says, tag by tag, and ends like it |
| DkimHeader.GetHeaderString | lib/dkim/DKIMHeader.src.cc:146-155 | The filter joined by colons; for an empty filter the original removes a character that is not there |
| DkimHeader.ParseOfBuild | lib/dkim/DKIMHeader.src.cc:205-224 | Parsing what was built returns every field: selector, domain, header list, algorithms, both dates or neither, body hash and signature |
| DkimHeader.AnyHeaderReads | lib/dkim/DKIMHeader.src.cc:42-134 | Whatever the tags of a value and their order, the last tag of a key counts, the lists of all tags h are joined, and what is not said is relaxed/relaxed and rsa-sha256 |
| DkimCanonicalization.CanonicalizeRelaxedBody | lib/dkim/DKIMCanonicalization.src.cc:38-76 | The line loops compute the relaxed body of the specification |
| DkimCanonicalization.CanonicalizeSimpleBody | lib/dkim/DKIMCanonicalization.src.cc:92-106 | The lines up to the last non-empty one |
| DkimCanonicalization.CanonicalizeRelaxedHeaders | lib/dkim/DKIMCanonicalization.src.cc:166-236 | Relaxed headers, picked and ordered by the filter |
| DkimCanonicalization.SortHeaders | lib/dkim/DKIMCanonicalization.src.cc:217-232 | The ordering loop takes, for each name of the filter, the first header of that name, and throws if there is none |
| DkimCanonicalization.CanonicalizeSimpleHeaders | lib/dkim/DKIMCanonicalization.src.cc:117-142 | The lines whose lower-case key is in the filter, unchanged and in their order |
| BodyLaws.RelaxedBodyIdentifies | lib/dkim/DKIMCanonicalization.src.cc:38-76 | Two bodies have the same relaxed form exactly if, without trailing blank lines, corresponding lines have the same words and agree on leading white space (section 3.4.4 of RFC 6376) |
| BodyLaws.RelaxedBodyIsIdempotent | lib/dkim/DKIMCanonicalization.src.cc:38-76 | Relaxing a relaxed body changes nothing |
| BodyLaws.RelaxedAbsorbsSimple | lib/dkim/DKIMCanonicalization.src.cc:92-106 | Relaxing the simple form is relaxing the body |
| BodyLaws.SimpleBodyIs | lib/dkim/DKIMCanonicalization.src.cc:92-106 | The simple form is the lines as they are, up to the last one that is not empty, and the first one in any case |
| BodyLaws.RelaxedBodyIsWords | lib/dkim/DKIMCanonicalization.src.cc:38-76 | The relaxed form is, for every line up to the last one with a word, its words, one space apart, behind one space if it was indented |
| DkimSigner.Signer.SignMessage | lib/dkim/DKIMSigner.src.cc:54-134 | The signing steps update the configuration and the result as the specification of signing says |
| DkimSigner.CanonicalizeHeaders | lib/dkim/DKIMSigner.src.cc:170-214 | The bytes that are given to the private key |
| DkimSigner.CanonicalizeBody | lib/dkim/DKIMSigner.src.cc:136-168 | The bytes that are hashed for the body |
| DkimValidator.Validator.ValidateOne | lib/dkim/DKIMValidator.src.cc:26-186 | One signature: the body hash against the hash of the received body, record lookup, re-canonicalization, the pre-sign header cut at the first "b=", verification; what the verdict says is `DkimVerdicts.ReportVouches` |
| DkimValidator.Validator.ValidateMessage | lib/dkim/DKIMValidator.src.cc:188-272 | All signatures of a message in order, behind those of earlier messages, and the overview: passed exactly if the first one of all is valid, neutral without any, else what it was (Fail in a fresh validator) |
| DkimAgreement.RelaxedAgreement | lib/dkim/DKIMValidator.src.cc:26-272 | With relaxed headers, the validator hashes and verifies the very bytes the signer used exactly if the signer carried no signature over and no tag in front of the signature holds "b=" (sections 3.4.2 and 3.7 of RFC 6376) |
| DkimAgreement.SignedMessagePasses | lib/dkim/DKIMSigner.src.cc:54-134 | A signed message is reported Pass, or, with a misleading tag and a verifier that rejects other bytes, Fail |
| DkimSigning.SigningSucceeds | lib/dkim/DKIMSigner.src.cc:54-134 | For a message with headers and body, signed before or not, and a configuration that can be written, signing succeeds exactly if, with relaxed headers, every name of the filter is there; it never runs into undefined behaviour, and what it writes can be read |
| DkimSigning.SignedMessageIsReported | lib/dkim/DKIMValidator.src.cc:188-272 | From message and configuration alone: what a fresh signer with relaxed headers signs is reported Pass, or Fail exactly under a misleading tag value |
| DkimAgreement.FirstB | lib/dkim/DKIMValidator.src.cc:112-126 | Where the search for "b=" stops: at the signature tag exactly if no tag in front of it holds "b=" |
| DkimLimits.SimpleAgreement | lib/dkim/DKIMValidator.src.cc:26-272 | With simple headers the bytes agree exactly if, besides, every signed header is already in the form the validator rebuilds |
| DkimLimits.OldSignatureIsSigned | lib/dkim/DKIMCanonicalization.src.cc:166-236 | With relaxed headers and a signature in the message, the old header ends the signed bytes in the place of the new one, and the validator verifies those bytes exactly if the old header is the new one as it is cut; never if the old one has a value behind "b=" |
| DkimLimits.OldSignatureSpoilsSimple | lib/dkim/DKIMCanonicalization.src.cc:117-142 | With simple headers the old signatures are signed beside the new one and not verified: the bytes never agree |
| DkimLimits.MixedParsed | lib/dkim/DKIMValidator.src.cc:205-228 | The validator keeps the signatures of a message apart from its other headers, which it rewrites |
| DkimResigning.ResignedBytes | lib/dkim/DKIMSigner.src.cc:54-134 | For a message that was signed before, the validator verifies the bytes of the new signature exactly if headers are relaxed and the first old header is the new one as it is cut |
| DkimResigning.ResignedIsReported | lib/dkim/DKIMValidator.src.cc:188-272 | From message and configuration alone: such a message is reported with the verdicts on its old signatures, then Invalid on the new one unless it repeats the old header; the overview is that of the first old signature |
| DkimResigning.SignedIsNotRepeated | lib/dkim/DKIMValidator.src.cc:112-126 | An old header with a value behind its last "b=" is never repeated |
| DkimVerdicts.RelaxedBytesSpelled | lib/dkim/DKIMCanonicalization.src.cc:166-236 | With relaxed headers signer and validator work on, for every name of the filter in its order, the words of the first header so named, and the signature header up to "b=" (sections 3.4.2 and 3.7 of RFC 6376); both throw if a name is missing |
| DkimVerdicts.SimpleBytesSpelled | lib/dkim/DKIMCanonicalization.src.cc:117-142 | With simple headers the signer works on the filtered headers as they stand, the validator on the same headers as it has rewritten them |
| DkimVerdicts.ChangedIsReported | lib/dkim/DKIMValidator.src.cc:26-186 | A signed message that arrives with any headers and any body, from message, configuration and what arrives alone: Invalid for another body digest, RecordNotFound without a record, a system failure for a missing name, Valid exactly if the filter finds the same and no tag misleads, else Invalid |
| DkimVerdicts.TamperedBodyFails | lib/dkim/DKIMValidator.src.cc:62-81 | Through signer and validator, whatever the keys and records: the signed text with another body is reported Invalid and Fail exactly as its digest differs, and like the signed message if it does not |
| DkimVerdicts.SignatureIsWritten | lib/dkim/DKIMSigner.src.cc:54-134 | The new header holds the tags v, s, h, d, c, a, both dates or none, bh and b in this order, each with the value of the configuration, the digest of the body and the signature of the spelled bytes; the body stays |
| DkimVerdicts.ClientSignaturePasses | lib/smtp/client/SMTPClient.src.cc:97-121 | With the configuration the mail client signs with, mail that has its six headers is reported Pass, or Fail exactly if "b=" is in selector, domain or body hash |
| DkimVerdicts.ReportVouches | lib/dkim/DKIMValidator.src.cc:188-272 | Of any message: one verdict for each signature, Valid exactly if the signature can be read, its body hash is the sha1 or sha256 of the received body, a record was found and its key verifies the bytes of the received headers; Pass exactly if that holds of the first, Neutral exactly if there is none |
| SmtpCommand.ClientCommand.Parsed | lib/smtp/Command.src.cc:29-124 | The parsing constructor fills the type and the arguments as the specification says |
| SmtpCommand.ClientCommand.ReadArguments | lib/smtp/Command.src.cc:117-123 | The `getline` loop pushes the pieces between single spaces |
| SmtpCommand.ClientCommand.Build | lib/smtp/Command.src.cc:126-177 | The stream holds the name, a colon for two of the commands, the arguments and CRLF |
| SmtpCommand.WholeLineReceived | lib/smtp/server/SMTPServer.src.cc:132-133 | What the reader cuts at the first CRLF is the whole command line |
| SmtpCommand.CommandRoundTrip | lib/smtp/Command.src.cc:29-177 | The peer parses exactly the command that was built if and only if its arguments are non-empty words, without a colon for commands that have none, or the lone empty argument of a colon command |
| SmtpClientSession.ClientSession.SetAction | lib/smtp/client/SMTPClientSession.src.cc:62-65 | Setting the mask adds exactly that action to those the word stands for |
| SmtpClientSession.ClientSession.ClearAction | lib/smtp/client/SMTPClientSession.src.cc:105-108 | Clearing the mask takes exactly that action away |
| SmtpClientSession.ClientSession.GetAction | lib/smtp/client/SMTPClientSession.src.cc:73-79 | BINARY_COMPARE decides whether the action is in the word |
| SmtpClientSession.ClientSession.GetActionSet | lib/smtp/client/SMTPClientSession.src.cc:88-97 | Reports the action and sets it |
| SmtpClientLoop.Conversation.Switch | lib/smtp/client/SMTPClient.src.cc:297-587 | The switch with its fall-through cases leads where one step of the specification leads, and keeps the invariant; which codes go on and what the others do is `SmtpClientAnswers.ReadIsJudged` |
| SmtpClientLoop.Conversation.AskAccess | lib/smtp/client/SMTPClient.src.cc:464-498 | FCAPA and SU: granted on 601 and then 600 only |
| SmtpClientLoop.Conversation.ReadOptions | lib/smtp/client/SMTPClient.src.cc:511-558 | The options set the flags, and the next turn acts on a 250 without reading |
| SmtpClientLoop.Conversation.Hold | lib/smtp/client/SMTPClient.src.cc:242-588 | The `while (_run)` loop ends, after at most nine turns, in the state the steps lead to |
| SmtpClientLoop.SMTPClient.BeSocial | lib/smtp/client/SMTPClient.src.cc:187-596 | Every target is tried once, whatever happened before; the log grows by the problems of each conversation, in order, and the counter with it |
| SmtpClientLoop.OneEntryPerTarget | lib/smtp/client/SMTPClient.src.cc:173-185 | The error log has exactly one entry for each target with a problem, in the order of the targets, with its address and that problem, and none besides |
| SmtpClientLoop.EachTargetIsSent | lib/smtp/client/SMTPClient.src.cc:187-596 | The text each target is sent, command by command, with the domain, sender, target and message of the job: a beginning of the full text or the one HELO, and all of it when nothing went wrong |
| SmtpClient.FollowsScript | lib/smtp/client/SMTPClient.src.cc:242-588 | For every sequence of replies and failed reads, what was written is a beginning of greeting, STARTTLS, upgrade, greeting, MAIL FROM, RCPT TO, DATA, body, QUIT, or the one HELO; at most nine rounds |
| SmtpClient.MailOnlyUnderTls | lib/smtp/client/SMTPClient.src.cc:416-443 | Nothing of the mail transaction is written before a successful upgrade (section 4.2 of RFC 3207) |
| SmtpClient.StepIsFine | lib/smtp/client/SMTPClient.src.cc:242-588 | One read and what follows keeps the invariant that ties the written items, the action bits and the round count together |
| SmtpClient.EndOfConversation | lib/smtp/client/SMTPClient.src.cc:298-304 | A conversation ends, within nine rounds and with at most one error; without error and failed read exactly on the 221 behind the complete script |
| SmtpClient.ErrorFreeSendsOnce | lib/smtp/client/SMTPClient.src.cc:379-395 | A conversation without error and failed read has written the body exactly once |
| SmtpClient.PlainServerIsRefused | lib/smtp/client/SMTPClient.src.cc:563-586 | The HELO branch runs into the error branch: a server that does not say ESMTP is never sent a mail |
| SmtpClientAnswers.ReadIsJudged | lib/smtp/client/SMTPClient.src.cc:242-588 | For every waiting state and every successful read: the conversation goes on without an error exactly if the code is accepted behind the last item and nothing stands in the way; a code that is not accepted ends it, writes nothing and is logged |
| SmtpClientAnswers.OtherCodeEnds | lib/smtp/client/SMTPClient.src.cc:577-586 | Waiting for a reply, a code outside 220, 221, 250 and 354 ends the conversation, writes nothing and logs exactly that reply |
| SmtpClientAnswers.ErrorFreeIsAnswered | lib/smtp/client/SMTPClient.src.cc:242-588 | In a conversation without error and failed read, every read from the greeting on brought a code that is accepted there |
| SmtpClientAnswers.EveryItemIsAnswered | lib/smtp/client/SMTPClient.src.cc:297-395 | Every item such a conversation wrote was answered with a code accepted behind it |
| SmtpClientAnswers.TransactionIsAnswered | lib/smtp/client/SMTPClient.src.cc:326-409 | Such a conversation read 250 or 221 behind MAIL FROM and behind RCPT TO, 354, 250 or 221 behind DATA, 220, 221, 250 or 354 behind the body, 221 behind QUIT: a positive completion behind each but DATA, exactly if it was not 354 |
| SmtpClientAnswers.BodyIsTakenFor | lib/smtp/client/SMTPClient.src.cc:379-409 | A run with any answer to the body: the mail counts as delivered exactly if that is 220, 221, 250 or 354, else the answer is logged and QUIT is not written |
| SmtpServerSession.ServerSession.StorageTasksToSpam | lib/smtp/server/SMTPServerSession.src.cc:30-37 | Every inbox task becomes a spam task, in place |
| SmtpServerSession.ServerSession.RemoveSentTasks | lib/smtp/server/SMTPServerSession.src.cc:39-47 | The first task for the sent box is erased |
| SmtpServerSession.ServerSession.SetFlag | lib/smtp/server/SMTPServerSession.src.cc:24 | Setting the mask adds exactly that flag |
| SmtpServerLoop.Connection.HandleCommand | lib/smtp/server/SMTPServer.src.cc:185-587 | Each command changes the session, the replies and the queues as the specification says, and leaves by return or exception; what gives a right and what is answered are `SmtpRights.RightsAreEarned` and `SmtpAnswers.AnswersAreThese` |
| SmtpServerLoop.Connection.TakeSender | lib/smtp/server/SMTPServer.src.cc:292-366 | MAIL FROM: order, parsing, the rights of local senders |
| SmtpServerLoop.Connection.TakeRecipient | lib/smtp/server/SMTPServer.src.cc:372-458 | RCPT TO: local account, relay task with one sent copy, or refusal |
| SmtpServerLoop.Connection.TakeBody | lib/smtp/server/handlers/data.src.cc:20-309 | The DATA handler on a given outcome of the checks: verdict, rewritten text, tasks, reply, and the session itself pushed to the workers that have something to do |
| SmtpServerLoop.Connection.PushTasks | lib/smtp/server/handlers/data.src.cc:305-306 | Each worker's queue gets the session, not its tasks, if the session holds one for it |
| DataText.BuildText | lib/smtp/server/handlers/data.src.cc:192-239 | The headers joined, two more behind them, all folded at 128, and the body: the text of the specification, or where it stops at a header that cannot be folded |
| DataText.BuildAdded | lib/smtp/server/handlers/data.src.cc:55-225 | The two added headers: the results of the checks, or that the client authenticated, and the trace line |
| DataText.AddedSays | lib/smtp/server/handlers/data.src.cc:176-225 | The first added header says auth=pass, or spf, dkim, dmarc and, for a comrade, su, in this order; the second is the trace line |
| DataText.WholeIfAllFold | lib/smtp/server/handlers/data.src.cc:192-239 | The text is made exactly for a message with headers, an empty line and a body, and is whole exactly if all headers can be folded |
| DataText.StoredTextReadsBack | lib/smtp/server/handlers/data.src.cc:192-239 | Reading the stored text gives the headers of the message, in order, in front of the added ones, and its body line by line |
| SmtpServerLoop.Connection.Serve | lib/smtp/server/SMTPServer.src.cc:109-170 | The loop of a connection: at most sixty commands, exception replies, closing |
| SmtpServer.OrderAndRights | lib/smtp/server/SMTPServer.src.cc:223-541 | In every reachable state DATA implies RCPT TO implies MAIL FROM; relaying holds exactly with relay tasks and implies a local sender, who is authenticated and equals the envelope sender |
| SmtpServer.RunFreezes | lib/smtp/server/SMTPServer.src.cc:292-540 | Once authenticated the account never changes, nor does the envelope sender; behind DATA neither does the text nor the verdict, and the session is not pushed again |
| SmtpServer.RecipientsAreConserved | lib/smtp/server/SMTPServer.src.cc:431-456 | One inbox-or-spam task or one relay task per accepted recipient, in order and for the right owner, and at most one sent copy |
| SmtpServer.HandedOverOnce | lib/smtp/server/handlers/data.src.cc:284-306 | Each worker gets the session at most once; the client's exactly if a remote recipient was accepted by then, the store's if a local one was |
| SmtpServer.LateRecipientIsAccepted | lib/smtp/server/SMTPServer.src.cc:381-456 | Behind DATA, RCPT TO is still answered with 250, and the session that is queued already gets one more inbox task |
| SmtpRights.RightsAreEarned | lib/smtp/server/SMTPServer.src.cc:185-587 | Over every run a session has a flag exactly if one of its inputs earned it: a granted AUTH, a successful STARTTLS, an allowed SU, a MAIL FROM of the account's owner, an outside recipient of a local sender |
| SmtpRights.AuthenticatedByGrant | lib/smtp/server/SMTPServer.src.cc:464-508 | Over every run a session is authenticated exactly if a handled AUTH was granted, as the account of that grant |
| SmtpRights.RefusedAuthCloses | lib/smtp/server/SMTPServer.src.cc:498-500 | A refused password is answered with 530, gives no right and ends the connection for good |
| SmtpRights.SenderIsNamed | lib/smtp/server/SMTPServer.src.cc:292-366 | Over every run there is a sender exactly if a MAIL FROM named one that is foreign, a comrade's, or username@domain of the authenticated account; he is the one that was named |
| SmtpRights.RecipientsAreNamed | lib/smtp/server/SMTPServer.src.cc:372-458 | Over every run the accepted recipients are those the inputs name, in order: the account that was found, or the address elsewhere for a local sender |
| SmtpRights.RelayIsBehindAGrant | lib/smtp/server/SMTPServer.src.cc:347-454 | A relay task exists only behind a granted AUTH, then a MAIL FROM with username@domain of that account, then a recipient elsewhere |
| SmtpAnswers.AnswersAreThese | lib/smtp/server/SMTPServer.src.cc:185-587 | Every command is answered with the codes of a table told by what it achieves or why it fails, closes the connection in the cases listed, and changes nothing when answered with 501, 502 or 503 |
| SmtpAnswers.RunIsAnswered | lib/smtp/server/SMTPServer.src.cc:109-170 | The replies of a connection are the greeting and the answers to its lines, in order |
| SmtpAnswers.TakenIsRight | lib/smtp/server/handlers/data.src.cc:56-308 | A body that is taken is answered with 354 and 250, its text has the two headers with the results of the checks, its tasks go to inboxes or, as spam, to spam boxes, the sent copy stays unless the message says otherwise, and each worker with a task gets the session |
| SmtpAnswers.UntakenIsLost | lib/smtp/server/handlers/data.src.cc:34-116 | A body that is not taken hands nothing over and ends the connection: 556 when too large, 550 when DMARC rejects it |
| SmtpAnswers.BodyIsJudged | lib/smtp/server/handlers/data.src.cc:56-118 | Over every run a session is judged spam exactly if neither a password nor SPF vouched for its sender and DMARC did not reject, and is handed over exactly if its body was taken |
| SmtpAnswers.CopiesAreTheSenders | lib/smtp/server/SMTPServer.src.cc:446-454 | In every reachable state the copies of sent mail are the sender's own |
| SmtpHandOver.EverybodyIsServed | lib/workers/DatabaseWorker.src.cc:64-78 | For every order of commands and of the two workers' reads: a worker finds a task for exactly the recipients of his that were accepted by his read, in order, and everybody is served exactly if no accepted recipient is missed |
| SmtpHandOver.WhoIsMissed | lib/smtp/server/handlers/data.src.cc:305-306 | Once both workers are done, a recipient is missed exactly if he was accepted behind the body, and behind the read of his worker or when that worker had not been given the session because it held nothing for it |
| SmtpHandOver.SpamInTheInbox | lib/smtp/server/handlers/data.src.cc:284-306 | The store finds an inbox task of a session judged spam exactly if a local recipient was accepted between the push and the read |
| SmtpHandOver.SecondRecipient | lib/smtp/server/SMTPServer.src.cc:431-456 | Two runs from the first command on: a second recipient of a spam mail, named behind the body, gets it into his inbox if the worker reads later, and is told 250 and gets nothing if it read before |
| SmtpHandOver.TextIsFinal | lib/workers/DatabaseWorker.src.cc:151-152 | Whenever a worker reads, he finds the text as it stood at the push |
| WorkerQueue.Queue.Pop | lib/workers/DatabaseWorker.src.cc:64-69 | What was pushed last leaves first, and the rest stays |
| SmtpServer.SixtyTurns | lib/smtp/server/SMTPServer.src.cc:127-130 | No connection handles more than sixty commands |
| SmtpJoint.DataInTwoSteps | lib/smtp/server/SMTPServer.src.cc:514-541 | Handling DATA and then its body is what the server does in one command |
| SmtpJoint.RoundIsFine | lib/smtp/client/SMTPClient.src.cc:297-587 | One round of client and server, whatever is read or left behind, keeps them in step: same commands done and right code on its way, or closed, or the last command not carried out and a refusal or nothing coming back |
| SmtpJoint.OrderException | lib/smtp/server/SMTPServer.src.cc:138-140 | In every joint run an order exception is raised exactly if MAIL FROM named a local domain without SU, or a failed read left 221 or 250 behind a MAIL FROM or RCPT TO that the server had not carried out while it stayed open (section 4.1.4 of RFC 5321) |
| SmtpJoint.RestIsCommands | lib/smtp/server/handlers/data.src.cc:33-38 | For any message: the server takes the text in front of the first terminator and runs on the rest as on lines of a client, with its invariants kept; there is a rest exactly if the message holds a terminator, and then its last line is the dot, answered with 502 if the connection gets that far |
| SmtpJoint.LostMoves | lib/smtp/client/SMTPClient.src.cc:243-288 | What a failed read with one of the four success codes left behind makes the client do: one more item and the end, or in front of the mail the greeting and the end |
| SmtpJoint.WhenItSlips | lib/smtp/client/SMTPClient.src.cc:243-288 | A run has slipped exactly if one of its rounds had such a failed read |
| SmtpSlip.LeftoverCode | lib/smtp/client/SMTPClient.src.cc:243-288 | A run from the connection on, for every sender and recipient: the store fails under RCPT TO, the read fails for that with 250 left over, DATA follows and 503 comes, although no local domain was named |
| SmtpDelivery.MailArrivesOnce | lib/smtp/client/SMTPClient.src.cc:187-596 | If the recipient exists and DATA is not rejected, the client ends error-free on the 221 with the full script written, and the server queued the session once for the store, with exactly one task, for the spam box if the session was judged spam and else for the inbox, and the rewritten text of the message sent |
| SmtpDelivery.WhatWaits | lib/smtp/server/handlers/data.src.cc:305-306 | At every moment of such a run at which the session is queued, it holds that task and that text |
| Pop3Server.HandleCommand | lib/pop3/P3Server.src.cc:200-713 | The commands change the session as the specification says |
| Pop3Server.Delete | lib/pop3/P3Server.src.cc:671-704 | DELE with the conversion to an unsigned index and its wrap-around |
| Pop3Server.Serve | lib/pop3/P3Server.src.cc:96-191 | The loop and, however it ends, the deletions behind it; what the lines of the client do is `Pop3Lines.GraveyardIsByLines` and `Pop3Lines.DeletedByLines` |
| Pop3.DeleAcceptsTheList | lib/pop3/P3Server.src.cc:683-699 | Despite the wrap-around, DELE accepts exactly the numbers of the list |
| Pop3.GraveyardIsTheLog | lib/pop3/P3Server.src.cc:660-704 | In every reachable state the graveyard points into the list and holds the numbers whose DELE was granted since the last RSET |
| Pop3.ListIsFrozen | lib/pop3/P3Server.src.cc:327-400 | Behind authentication the account and the list of references never change |
| Pop3.CommitRemovesTheMarked | lib/pop3/P3Server.src.cc:153-178 | Whatever ends the session, exactly the rows of the marked mails are gone from both tables, duplicates or not, and the others keep their order |
| Pop3Lines.LineIsRead | lib/pop3/P3Commands.src.cc:25-147 | A line is read by its words, however many spaces are between them: the first, in any case, is the command, the others are its arguments |
| Pop3Lines.CommandRoundTrip | lib/pop3/P3Commands.src.cc:44-134 | Every command word, in any case and with any arguments, comes back |
| Pop3Lines.LineMarks | lib/pop3/P3Server.src.cc:660-704 | A line RSET empties the graveyard, a granted line DELE adds its number to it, and every other line leaves it |
| Pop3Lines.GraveyardIsByLines | lib/pop3/P3Server.src.cc:660-704 | Over every session the graveyard holds exactly the numbers for which a line DELE was granted, with no line RSET behind it |
| Pop3Lines.DeletedByLines | lib/pop3/P3Server.src.cc:153-178 | Whatever ends the session, a row of the account's INBOX is gone exactly if the list names its mail under a number that stands, its raw mail with it, and every other row stays |
| Pop3Lines.PasswordLetsIn | lib/pop3/P3Server.src.cc:327-486 | A session is authenticated exactly behind a line PASS with the right password, as the account that the last line USER found |
| Pop3Lines.LineEnds | lib/pop3/P3Server.src.cc:114-150 | A line ends the session exactly if it is QUIT or runs into an exception the loop does not answer |
| MailStore.DeleteAllIs | lib/pop3/P3Server.src.cc:158-178 | Deleting mail after mail leaves the rows that are none of the listed mails |
| StorageWorker.DatabaseWorker.RestoreUid | lib/models/UIDHolder.src.cc:79-127 | The paged loop computes the largest UID of the owner |
| StorageWorker.DatabaseWorker.GetAndIncrement | lib/models/UIDHolder.src.cc:15-32 | Cached or restored, plus one, and cached again |
| StorageWorker.DatabaseWorker.Recount | lib/models/MailboxStatus.src.cc:168-247 | The paged loop counts the shortcuts of the mailbox that are not seen |
| StorageWorker.DatabaseWorker.GetStatus | lib/models/MailboxStatus.src.cc:66-141 | From the cache, as it stands, or recounted and cached; a mailbox without a row has none |
| StorageWorker.DatabaseWorker.AddOne | lib/models/MailboxStatus.src.cc:249-287 | Total, recent and unseen grow by one in the cache |
| StorageWorker.DatabaseWorker.StoreOne | lib/workers/DatabaseWorker.src.cc:80-172 | UID, status, shortcut and raw mail of one task, or a spent UID and nothing stored |
| StorageWorker.DatabaseWorker.Action | lib/workers/DatabaseWorker.src.cc:45-174 | The queue of sessions is emptied from its back, and every task a session holds when it is taken out is stored with its text |
| StorageWorker.DatabaseWorker.StoreAll | lib/workers/DatabaseWorker.src.cc:78-172 | One session: the tasks are read once and stored in order, each with the next identifier; what is stored where is `StorageWorker.QueueIsStored` |
| StorageWorker.WorkIsARun | lib/workers/DatabaseWorker.src.cc:45-174 | The work on a queue is a run of deliveries, the last session first |
| StorageWorker.WorkIsPossible | lib/workers/DatabaseWorker.src.cc:45-174 | With accounts that have their bucket and new identifiers, the work on a queue of sessions is a run to which the laws of the store apply |
| StorageWorker.LaterMailLowerUid | lib/workers/DatabaseWorker.src.cc:64-67 | In every queue, of two mails of an owner in different sessions, the one of the session queued later gets the lower UID |
| StorageWorker.ArrivalOrder | lib/workers/DatabaseWorker.src.cc:64-67 | The UIDs follow the arrival of the mails exactly if no two waiting sessions hold mail for the same owner |
| StorageWorker.BatchAscends | lib/workers/DatabaseWorker.src.cc:80-104 | Within a session the UIDs of an owner ascend in the order of the tasks |
| StorageWorker.EveryTaskIsStored | lib/workers/DatabaseWorker.src.cc:80-158 | If every mailbox has its row, every task gets one shortcut in the right mailbox and one raw mail |
| StorageWorker.QueueIsStored | lib/workers/DatabaseWorker.src.cc:64-158 | The work on any queue of sessions whose mailboxes exist: one row more in each table for every task of their storage lists, last session first, for the task's owner, in INBOX, INBOX.Sent or INBOX.Spam as its target says, with the session's text |
| MailFlow.MailIsStoredOnce | lib/workers/DatabaseWorker.src.cc:80-158 | A mail met kindly is queued by the end of its conversation; at whatever moment from then on the worker takes its session, one row more is in each table, of the recipient's owner and bucket, in "INBOX.Spam" if the session was judged spam and in "INBOX" otherwise, with the next UID, and it holds the rewritten text of the message sent |
| MailFlow.StoredMailReadsBack | lib/smtp/server/handlers/data.src.cc:192-239 | What is read from the raw row is the message that was sent: its headers, in front of two more, and its body |
| Storage.UidsAscend | lib/models/UIDHolder.src.cc:15-32 | Over every run of deliveries, reads, cache losses and deletions, a cached UID covers every stored one, the next UID is above all of them, and an owner's UIDs ascend in the order of the table (section 2.3.1.1 of RFC 3501) |
| Storage.UidsNeverRepeat | lib/models/UIDHolder.src.cc:15-32 | Over the same runs, an owner is given no UID twice, deleted mails included, exactly if no delivery finds the counter lost while the mail with the highest UID is deleted; the UIDs then count up from one |
| Storage.NextUidIsFresh | lib/models/UIDHolder.src.cc:15-32 | Behind such a run the next UID is above all that were given exactly if the counter is cached or the mail with the highest UID is stored; otherwise it was given before |
| Storage.TablesCorrespond | lib/workers/DatabaseWorker.src.cc:131-158 | Over the same runs shortcuts and raw mails are in bijection by bucket, owner and mail, and the size is that of the stored text exactly for mails without a NUL |
| Storage.StatusOverRuns | lib/models/MailboxStatus.src.cc:66-287 | Over every run a cached status is the recount with the unseen mails deleted since it was cached added, the mailbox row's total with the deliveries since then added, and those deliveries as recent |
| Storage.UnseenCountAgrees | lib/models/MailboxStatus.src.cc:66-141 | Without POP3 deletions, and outside the INBOX with them, a cached unseen count is the recount |
| Storage.UidIsReused | lib/models/UIDHolder.src.cc:21-32 | The run that gives a UID twice: deliver, delete over POP3, lose the counter, deliver; both mails get UID 1 |
| Storage.DeletionLeavesTheCount | lib/pop3/P3Server.src.cc:158-178 | Over every run a cached unseen count exceeds the recount by the unseen mails deleted since it was cached, and is the recount exactly if there was none |
| Storage.TotalIsForgotten | lib/models/MailboxStatus.src.cc:187-189 | Over every run, losing the cached status takes the deliveries since it was cached off the total, and leaves it exactly if there was none |
| Storage.RecentIsNotCleared | lib/models/MailboxStatus.src.cc:40-64 | Over every run the cached recent count is that of the deliveries since the last read exactly if none came between the caching and that read: what clears it writes field v6, and the count is v5 |
| Storage.ReadMailStaysRecent | lib/models/MailboxStatus.src.cc:118-124 | A run: deliver, read, deliver; one mail is recent behind the read and two behind the second delivery |
| Multipart.SplitMultipartMessage | lib/mime/mimev2.src.cc:292-346 | The loop over the lines finds the ranges between boundary lines, up to the end line |
| Multipart.RangesAreProper | lib/mime/mimev2.src.cc:292-346 | For any input the ranges are in order and apart, free of boundary lines, and strictly shorter than the text |
| Multipart.ComposeSections | lib/smtp/client/SMTPMessageComposer.src.cc:210-236 | The composing loop writes the boundary lines, headers and contents |
| Multipart.ComposeThenSplit | lib/smtp/client/SMTPMessageComposer.src.cc:195-238 | Splitting what was composed gives exactly the lines of each section, in order, if and only if no section line is a boundary line (section 5.1.1 of RFC 2046) |
| Multipart.SectionReads | lib/smtp/client/SMTPMessageComposer.src.cc:210-236 | A section that was written is read as a line for every header, an empty line, and the lines of its content |
| MimeTree.ParseMimeRecursive | lib/mime/mimev2.src.cc:352-439 | The recursion ends and appends the leaves of the message in order |
| MimeTree.LeavesFit | lib/mime/mimev2.src.cc:352-439 | However deep the nesting, the leaves together are shorter than the message |
| MimeTree.NestedMessage | lib/mime/mimev2.src.cc:352-439 | However deep it is nested, a composed message is taken apart into exactly its single parts, in order, each with its header, body and depth |
| MimeTree.ComposedMessage | lib/mime/mimev2.src.cc:352-439 | What the composer writes is taken apart into its sections: a line for every header, and the lines of the content |
| ImapLexer.Lexer.MakeTokens | lib/imap/IMAPCommandParser.src.cc:214-261 | The loop of the lexer pushes the tokens of the specification, and stops at a NUL |
| ImapLexer.Lexer.MakeNumber | lib/imap/IMAPCommandParser.src.cc:299-317 | A run of digits, and an exception beyond 32 bits |
| ImapLexer.RenderingRestores | lib/imap/IMAPCommandParser.src.cc:193-317 | Rendering the tokens gives back the text exactly if it has no NUL and no number with leading zeros |
| ImapLexer.TokensComeBack | lib/imap/IMAPCommandParser.src.cc:193-317 | Every sequence of tokens that can stand side by side comes back from its text |
| ImapLexer.TokensAreProper | lib/imap/IMAPCommandParser.src.cc:193-317 | And no other sequence is delivered: a number fits 32 bits and takes all its digits, other characters run up to a space, bracket, parenthesis, quote or NUL |
| ImapParserLoop.Parser.Parse | lib/imap/IMAPCommandParser.src.cc:353-418 | The recursive descent over an index computes the argument tree of the specification |
| ImapParserLoop.Parser.Children | lib/imap/IMAPCommandParser.src.cc:561-617 | The loops of lists and sections, up to the closing token of their kind |
| ImapParserLoop.Parser.StringArgument | lib/imap/IMAPCommandParser.src.cc:524-553 | A quoted string is the text of the tokens up to the closing quote |
| ImapParserLoop.Parser.RangeArgument | lib/imap/IMAPCommandParser.src.cc:442-485 | A colon between a number and a number or word becomes a range |
| ImapParser.Item | lib/imap/IMAPCommandParser.src.cc:367-418 | Every item consumes at least one token |
| ImapParser.ParsesIfBalanced | lib/imap/IMAPCommandParser.src.cc:353-617 | Parsing succeeds exactly if quotes are closed and, outside quotes, brackets match by kind and every colon stands between a number and a number or word |
| ImapParser.NestingMirrorsBrackets | lib/imap/IMAPCommandParser.src.cc:442-617 | Lists and sections nest as the brackets do, ranges included: the arguments, written out, are the tokens, with a chain of colons as its last range |
| Hex.DecodeInto | lib/general/hex.src.cc:87-107 | Pairs of digits, high half first; a digit left over is dropped |
| Hex.CharRoundTrip | lib/general/hex.src.cc:133-137 | Encoding an octet and decoding it gives the octet |
| Hex.DigitsAreUpperCase | lib/general/hex.src.cc:57-78 | The sixteen digits, in upper case |
| Hex.StringRoundTrip | lib/general/hex.src.cc:87-124 | Encoding a string writes the low half first: decoding gives the text back exactly if every octet has equal halves |
| QuotedPrintable.EncodeOneLine | lib/general/encoding.src.cc:157-184 | The character loop: literal, escaped, or trailing white space with a soft break |
| QuotedPrintable.EncodeQuotedPrintable | lib/general/encoding.src.cc:186-208 | Every non-empty line encoded and cut into physical lines |
| QuotedPrintable.OutputLinesAreShort | lib/general/encoding.src.cc:196-206 | No physical line has more than 76 characters (section 6.7 of RFC 2045) |
| QuotedPrintable.OutputIsPrintable | lib/general/encoding.src.cc:157-184 | Whatever octets the text has, the output has printable characters and white space only (section 6.7 of RFC 2045) |
| QuotedPrintable.QuotedPrintableRoundTrip | lib/general/encoding.src.cc:152-211 | Without soft breaks and escapes the output is the non-empty lines, each ended by CRLF, exactly if no line ends in white space |

## Left out

- Sockets, TLS contexts, threads and `readToDelim`: a channel that delivers whole lines or fails. Failing writes are not modelled.
- Hashing, RSA, base64, DNS, SPF and DMARC lookups, random boundaries, UUIDs and clocks: parameters. The facts used are that verification accepts what signing produced and, where a lemma says so, rejects other bytes.
- Cassandra and Redis drivers: tables are sequences of rows and caches are maps. Database errors are outcomes of the SMTP and POP3 commands; in the storing worker and in the POP3 commit no operation fails, and no cache key is lost in the middle of one operation.
- Overflow: a UID that reaches the largest 32-bit number is incremented past it, which the original language leaves undefined; UIDs and counters are unbounded here.
- `code` is redeclared in each turn of the client's loop although lines 550-554 mean to carry 250 into the next one: the model keeps it across turns. A failed read leaves an arbitrary code and text.
- Reply lines shorter than four characters, which make the client index or cut out of range, and the text of replies other than the greeting.
- A target without a resolved server: the original reads the first element of an empty list.
- A command and a worker's read of a session are one step each: a task list that is copied while it grows, which the original language leaves undefined, is not modelled.
- Connections to the TLS port, whose session starts as encrypted.
- `SMTPServerSession::setPossibleSpam` has no return statement although it promises a reference.
- Folding below width 8: at width 7 the loop does not advance, below it the lengths wrap around. The width is 128 wherever it is called.
- DkimSigner.Signer.SignMessage: a signer that is used twice keeps the signature of the first time; the theorems are about the first use, and about any carried-over signature as a parameter.
- MimeTree.ParseMimeRecursive: what the Content-Type of a header says is a parameter; charset, transfer encoding, dates and subjects are not modelled.
- Multipart.ComposeSections: the content of a section is taken as encoded already; normalizing the text of a body in front of its encoding is not modelled.
- Pop3Server.HandleCommand: RETR, TOP, LIST, STAT and UIDL are modelled as answers that change nothing; their texts and index bounds are not.
- QuotedPrintable.QuotedPrintableRoundTrip: the decoder is a reference one, removal of soft breaks and then of escapes; the decoders of the original are not called by its parser.
- StorageWorker.DatabaseWorker.StoreOne: no database error, which the original catches at each of its four steps and answers by giving the task up, or by leaving a shortcut without its raw mail.
- StorageWorker.DatabaseWorker.Action: nobody pushes to the queue or changes a waiting session during one round of work; a read at any other moment is what `SmtpHandOver` is about.
- SmtpServerLoop.Connection.TakeBody: the results of SPF, DKIM and DMARC, the trace line and what the rewritten text parses to (subject, snippet, first sender, X-Fannst flags) are given; of the flags only the no-store rule is modelled. Where a message without an empty line or without a body makes the original work on iterators that were never assigned, the connection ends.
- MimeTree.ComposedMessage: the content types are those the parameter gives, not parsed from the composed headers.
- IMAP sessions, the HTTP and DNS servers, command-line actions, logging, timers and type tables.
- The action and flag words are modelled with their low eight bits, which hold every mask; flags and actions that no code reads are left out on the server side.
