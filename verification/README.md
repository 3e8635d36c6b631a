# krb5-appl: models and proofs

krb5-appl is the set of Kerberos-aware network programs: the Berkeley r-commands, telnet and ftp with their
servers. This project models the parts of them that turn data into octets on a wire, or text into a decision,
and proves what those parts promise. Code that updates state step by step is modelled by classes and methods
with loops, each proved against a function of its inputs; the properties that span calls, runs or two parties
are lemmas about those functions.

Seven groups of files, by the program they belong to:

- **rcp** (`RcpRecords`, `RcpProtocol`, `RcpRuns`, `RcpTransfer`, `RcpTree`, `RcpLanding`, `RcpLoops`,
  `RcpFaults`, `RcpScript`). The control records as text and their parser; `source`/`rsource` and `sink` as two
  step machines over FIFO channels and an abstract file system. Moves of the two sides commute, so one complete
  run decides every interleaving: the tree arrives exactly, or the sink gives up at a node dated before 1970, or
  a local sink refuses something and both sides wait for each other, and exactly when is said. What each side
  makes of a peer that complains, sends something else or goes away is said for every state in which it waits.
- **the r-commands' record layer** (`Kcmd`, `KcmdStreams`, `KcmdSessions`, `KcmdChannels`). Encryption is an
  invertible function with a state and a length function. Reads refine a byte stream, and the cipher states of
  two ends, two channels and both directions stay in step over every session.
- **telnet's DES feedback modes** (`TelnetFeedback`, `TelnetFeedbackLaws`, `TelnetNegotiation`,
  `TelnetAgreement`, `TelnetTraffic`). DES is an uninterpreted function on blocks of eight octets. The stream
  functions against the block diagrams of RFC 2952 and RFC 2953, the negotiation of vectors between two parties,
  and encrypted text between them while it goes on.
- **rlogin** (`RloginInband`, `RloginRoundTrip`, `RloginWindows`, `RloginEscapes`). Quoting and the in-place scan
  that undoes it, window messages, and the escape character on the keyboard.
- **ftp data transfers** (`FtpSecure`, `FtpSecureStreams`, `FtpAscii`, `FtpAsciiLaws`, `FtpProtected`,
  `FtpRadix`). The protected channel of RFC 2228, the ASCII type of RFC 959 and its restart, and Base64.
- **ftp file name patterns** (`Glob`, `GlobMeaning`, `GlobTexts`). The recursive matcher with braces against the meaning
  of patterns by expansion.
- **utmp** (`Utmp`). The choice of the record that a session updates.

`Bytes` and `Wrappers` hold what several of them use.

## Where the code departs from what one would expect of it

The model follows the code in each case, its own comments notwithstanding, and a lemma says exactly when the expectation holds.

- `enc_des.c` draws output feedback as starting from DES(iV); the code starts from `str_feed`, which a new vector
  does not set (`TelnetFeedbackLaws.OfbStartsFromIv`).
- `error` in `krcp.c` writes to the wire only from the remote side, so a complaint of a local sink leaves the
  remote source waiting (`RcpTransfer.LockStep`); a message too long for its buffer loses the newline that
  `response` waits for (`RcpLoops.LongComplaintHangs`).
- `storage` in `kcmd.c` serves both channels, which keep apart exactly when no record is longer than a read
  (`KcmdChannels.ChannelsKeepApartIff`); and a read that meets the end loses what it had copied
  (`KcmdStreams.EmptyRecordAndEnd`).
- rcp prints the times of a file with a sign and reads them without one, so `rcp -p` of a file dated before 1970
  aborts, at the node that it comes to (`RcpRecords.TimesLineParses`, `RcpTransfer.FinishedIff`).
- A window size is taken out of typed text that happens to look like one (`RloginWindows.TypedTextPasses`), and one
  that two reads of the server cut is typed (`RloginWindows.CutMessageIsTyped`).
- rlogin's quote rule is said to protect binary data; restored flag octets are scanned again
  (`RloginRoundTrip.QuotingRoundTrip`).
- An upload resumed in ASCII type counts its offset in two ways (`FtpAsciiLaws.UploadResumes`).
- A session key given anew in the middle of encrypted text starts one side's streams anew and not the other's
  (`TelnetTraffic.SessionBetween`).
- The Base64 decoder accepts anything behind a pad character on a four-character boundary
  (`FtpRadix.AcceptedIsCanonical`).
- A descending range in a file name class is read as its two ends (`Glob.RangeIsExact`).
- `fb64_keyid` is said to mark a state as SUCCESS; for decryption no sequence of calls does
  (`TelnetAgreement.DecryptionNeverSucceeds`).

## Model

| member | source | states |
|---|---|---|
| RcpRecords.GetNum | bsd/krcp.c:973 | The digit loop returns the number that the longest run of digits at that place denotes, and the position behind the run. |
| RcpRecords.GetMode | bsd/krcp.c:1006-1012 | The mode loop returns the twelve bits of four octal digits, or that one of the four characters is none. |
| RcpRecords.ReadCommand | bsd/krcp.c:947-967 | One round of the command loop reads up to the first newline and no further, and takes the text before it for the command that the parser defines; an input that is over before the line begins gives no command, one that is over inside the line is the screwup "lost connection". |
| RcpRecords.WholeIsNotCut | bsd/krcp.c:951-956 | No whole line is ever taken for one that was cut off. |
| RcpRecords.ParseLine | bsd/krcp.c:958-1019 | The branches and loops that take a line apart give the command, or the complaint about it, that the parser defines, for every line. |
| RcpRecords.NumberOfDecimal | bsd/krcp.c:751-752 | A printed decimal number followed by something that is no digit is read back, whatever stands around it. |
| RcpRecords.ModeFieldOfOctal | bsd/krcp.c:751-752 | All twelve bits of a mode survive "%04o" and the mode loop. |
| RcpRecords.TimesLineParses | bsd/krcp.c:973-991 | The T record is parsed as the times it was printed from if and only if none of them is negative; otherwise the sink calls the first negative one a screwup. It holds no newline or NUL. |
| RcpRecords.FileLineParses | bsd/krcp.c:751-752 | The C record is parsed as the mode, size and name it was printed from. |
| RcpRecords.DirectoryLineParses | bsd/krcp.c:820-821 | The D record is parsed as the mode and name it was printed from. |
| RcpRecords.LinesLookLike | bsd/krcp.c:745-821 | Records and complaints as they look on the wire. |
| RcpRecords.NumberReads | bsd/krcp.c:973 | The longest run of decimal digits at a place is read for the number it denotes; no digit at all is read as 0. |
| RcpRecords.HeaderTaken | bsd/krcp.c:1006-1019 | Every C or D line of four octal digits, a space, any run of digits, a space and a name is taken, with exactly that mode, size and name up to a NUL. |
| RcpRecords.HeaderOnlySo | bsd/krcp.c:1006-1019 | Whatever line is taken for a file or a directory has that form. |
| RcpRecords.HeaderRejected | bsd/krcp.c:1008-1019 | The first thing that is missing in a C or D line names the complaint: a bad mode, no space behind the mode, no space behind the size. |
| RcpRecords.TimesTaken | bsd/krcp.c:974-991 | Every T line of four runs of digits with a space between them, up to a NUL or the end, is taken for exactly those times. |
| RcpRecords.TimesOnlySo | bsd/krcp.c:974-991 | Whatever line is taken for times has that form. |
| RcpRecords.TimesRejected | bsd/krcp.c:977-988 | The first of the four fields that does not end as it should names the complaint. |
| RcpRecords.OtherLines | bsd/krcp.c:950-1004 | Messages of the source, the end of a directory, an empty line and everything that is no record: what each of them is, on the first line and on later ones. |
| RcpRecords.Printed | bsd/krcp.c:836 | A line that fits the buffer is printed whole, and never more than the buffer holds. |
| RcpRecords.Clipped | bsd/krcp.c:1168-1169 | A message that fits is kept whole; a longer one becomes its prefix of exactly the length that the buffer has room for. |
| RcpLoops.SendBody | bsd/krcp.c:763-770 | Blocks of RCP_BUFSIZ octets and a shorter last one put exactly the file on the wire. |
| RcpLoops.FillBlock | bsd/krcp.c:1077-1088 | However reads deliver, the buffer is filled with exactly the next octets of the stream; failure means that the stream ended first. |
| RcpLoops.ReceiveBody | bsd/krcp.c:1069-1101 | However reads deliver, the file ends as the first `size` octets of the stream, an older longer content being cut off; failure exactly if fewer arrive. |
| RcpLoops.Response | bsd/krcp.c:847-875 | The loop of `response` reads exactly as many octets, and returns the verdict, that the one-octet step function gives. |
| RcpLoops.OneReplyEach | bsd/krcp.c:854-873 | One zero octet answers one `response`; an error message that fits the buffers is read up to its newline and not an octet further. |
| RcpLoops.LongComplaintHangs | bsd/krcp.c:1159-1173 | `response` is left waiting by an error message exactly when the message is too long for the buffer of `error`, which then cuts off the newline. |
| RcpProtocol.MovesCommute | bsd/krcp.c:745-776 | When both sides can move, either move stays possible after the other and both orders lead to the same state. |
| RcpRuns.RunsConverge | bsd/krcp.c:912-1119 | If one interleaving ends in a terminal state, every interleaving can be completed to the same state, with the same number of moves. |
| RcpTransfer.SendTimes | bsd/krcp.c:738-750 | The T record is acknowledged and leaves the times pending at the sink; without -p nothing is sent. |
| RcpTransfer.SendFile | bsd/krcp.c:751-776 | Header, data and the three acknowledgements of a file that can be stored bring both sides back to idle with the file deposited. |
| RcpTransfer.RefuseHeader | bsd/krcp.c:1052-1056 | A refused header: with a remote sink the source skips exactly this node and both count one error; with a local sink both sides wait for ever. |
| RcpTransfer.EnterDir | bsd/krcp.c:1032-1043 | The D record of a directory that can be entered makes it, enters a new call of `sink` for it and starts the source on its children. |
| RcpTransfer.LeaveDir | bsd/krcp.c:968-971 | The E record returns from the inner `sink`, whose caller then sets the times that were pending for the directory. |
| RcpTransfer.TransferNode | bsd/krcp.c:788-843 | From idle states, a whole tree is transferred with the outcome that depositing it in one piece has, or ends in the deadlock of a refusal at a local sink, or with the sink gone at the first node it comes to that is dated before 1970 under -p. |
| RcpTransfer.OneOrder | bsd/krcp.c:694-778 | There is a complete run of every transfer whose lines fit the buffers, ending in the accomplished transfer, or with the sink gone at a node dated before 1970 under -p, or, with a local sink that refuses something, in a deadlock. |
| RcpTransfer.EveryOrder | bsd/krcp.c:694-1119 | Every partial run of the two sides can be completed, and always to that same end. |
| RcpTransfer.FinishedIff | bsd/krcp.c:694-1119 | Every interleaving of any transfer that has come to its end: both calls have returned with nothing left on the wire if and only if no node dated before 1970 is come to under -p and the sink is the remote side or refuses nothing; then the file system is that of the deposit; if one is come to, below directories or behind siblings too, the sink has exited and its file system is as it was when that node came. |
| RcpTransfer.AbortIff | bsd/krcp.c:973-991 | A sink gives up only under -p and on a tree with a node dated before 1970; a tree of which it refuses nothing makes it give up if and only if there is such a node anywhere in it. |
| RcpRuns.WindsDown | bsd/krcp.c:745-875 | A source whose sink has gone comes to an end from any state, and leaves the sink as it was. |
| RcpTransfer.RunsAreBounded | bsd/krcp.c:694-1119 | No interleaving runs for ever: one bound holds for the lengths of all runs of a transfer. |
| RcpTransfer.LockStep | bsd/krcp.c:1172-1175 | In every reachable state the two sides are both blocked only if the transfer is accomplished, if and only if no node dated before 1970 is come to under -p and the sink is the remote side or refuses nothing. |
| RcpScript.SourceWritesScript | bsd/krcp.c:694-843 | A source that is acknowledged from the greeting on writes exactly, node by node, the T record under -p, the header, and the octets of a file with a zero octet or what is in a directory with the E record; it reads one acknowledgement for each and comes to its end. |
| RcpFaults.ReplyMeans | bsd/krcp.c:847-875 | A reply that begins with any octet: 0 accepts; 1 refuses, with the text up to the newline or until the buffer is full; any other one ends the source. |
| RcpFaults.SourceHears | bsd/krcp.c:847-875 | A waiting source with a complete reply in front of it, for some order of moves: it takes that reply and nothing more, and goes on, skips the record with one error, or exits. |
| RcpFaults.SinkHears | bsd/krcp.c:1104-1114 | The sink behind the last octet of a file: a reply that accepts or refuses settles the times and is answered, a refusal counts one error, anything else ends the sink. |
| RcpFaults.SinkOnLine | bsd/krcp.c:943-1004 | The sink on any line of the source: messages cost an error or end it, times are kept and acknowledged, and what is no record is one error, one complaint with its reason, and the end. |
| RcpFaults.SinkOnHeader | bsd/krcp.c:1020-1068 | The sink on any C or D record: a name that does not fit its buffer ends it; what is in the way costs one error and one complaint that names path and reason; otherwise it acknowledges and enters the directory or takes the octets. |
| RcpFaults.SinkReturns | bsd/krcp.c:968-971 | On an E record, or when the source has gone between two records, the running call returns and its caller stamps the directory with the times that were pending. |
| RcpFaults.SinkLosesSource | bsd/krcp.c:953-1115 | A source that ends inside a line, inside a file, or before the reply behind it ends the sink, with the complaint of each case. |
| RcpFaults.SourceLosesSink | bsd/krcp.c:862-866 | A source that waits for a sink that has gone exits. |
| RcpTree.SiblingsApart | bsd/krcp.c:1020-1029 | Paths below two different names of one directory never coincide. |
| RcpTree.DepositBuilds | bsd/krcp.c:1031-1110 | Depositing a tree where nothing was creates exactly the tree less what is refused: names, nesting and contents; the mode of each node is the one sent under -p, and otherwise that less the bits of the umask; the times are the ones sent under -p; outside its path only the parent directory's own times change; refusals are counted once per refused node. |
| RcpTree.NothingPruned | bsd/krcp.c:1052-1056 | A tree of which nothing is refused loses nothing. |
| RcpTree.NewTreesArrive | bsd/krcp.c:694-1119 | Where none of the names sent is in use, for every interleaving: both calls return if and only if no node dated before 1970 is come to under -p and a local sink refuses nothing; and then the target directory holds exactly the trees sent, less the refused nodes and what is below them, and nothing else under those names. |
| RcpTree.NewTreeArrives | bsd/krcp.c:1025-1029 | Onto an unused name, for every interleaving: on the same condition both calls return, and then the tree has arrived exactly, under that name, less the refused nodes and what is below them; both sides count the refusals; a refused root leaves the file system as it was. |
| RcpLanding.DepositLands | bsd/krcp.c:1031-1110 | Depositing a tree over any file system gives every accepted node its entry, judged by what was at its path before: the mode sent under -p, else the mode that was there, else the mode sent less the bits of the umask; counts one refusal for each node that is in the way of something or denied; and changes nothing else but the times of the directory a name is added to. |
| RcpLanding.SameOutcome | bsd/krcp.c:1031-1056 | What becomes of a node depends only on what is at its path and below. |
| RcpLanding.TreesArrive | bsd/krcp.c:694-1119 | Into any existing directory, for every interleaving: both calls return, with nothing left on the wire, if and only if no node dated before 1970 is come to under -p and a local sink refuses nothing; and then files sent have exactly the sent content, directories are there, modes are kept or set under -p, times are the sent ones or untouched; both sides count the same refusals, kinds in conflict included; every path that is no accepted node's is as it was, and the target directory but for its times. |
| RcpLanding.TreeArrivesAs | bsd/krcp.c:1025-1029 | The same for a target that is an unused name or a file: the node takes that name, or is refused. |
| RcpLanding.ExistingFileReplaced | bsd/krcp.c:1052-1101 | For every interleaving, a file sent onto an existing file, longer or shorter, named as the target or found in a target directory, ends as exactly the sent octets, with its mode changed only under -p, and nothing else changes; or under -p, if it is dated before 1970, the sink gives up and nothing changes at all. |
| Bytes.FullRead | bsd/kcmd.c:173-198 | However single reads deliver, exactly the octets asked for are returned, or all there are before the end, and the rest of the stream is untouched. |
| Bytes.BigEndianInverse | bsd/kcmd.c:1049-1053 | A four-octet length is read back; below 2^24 its first octet is zero. |
| Kcmd.Usages | bsd/kcmd.c:794-852 | Usage 1026 for both channels under the old protocol and for the older encryption types; otherwise the client sends under 1032 and 1034 and receives under 1028 and 1030, and the server the other way round. |
| Kcmd.InitialStates | bsd/kcmd.c:804-862 | Under the old protocol there is no starting state; for the older encryption types each channel starts from a block of its own. |
| Kcmd.Stream.constructor | bsd/kcmd.c:770-869 | The stream starts with nothing stored, with those usages by number, and with the states of its side and protocol. |
| Kcmd.FirstRecord | bsd/kcmd.c:794-1061 | The first record of either side on either channel: its four octets of length, then the text enciphered under usage 1032, 1034, 1028 or 1030 from the state made for that usage, or under 1026 from a block filled with 0, 1, 2 or 3, or without a state; and exactly which payloads are too long. |
| Kcmd.Stream.Write | bsd/kcmd.c:1009-1061 | A writable payload goes out as one packet and moves only the state of its own channel and direction; any other returns -1 or, if it does not even fit the buffer in front of encryption, aborts, and sends nothing. |
| Kcmd.Stream.Read | bsd/kcmd.c:899-1005 | A read does what the specification of one read says to the buffer, the shared store, the channel's cipher state and the stream, and touches no other channel's state. |
| Kcmd.Stream.FindLength | bsd/kcmd.c:926-934 | The resynchronisation loop stops at the first octet, or with the length check at the first zero octet. |
| Kcmd.Stream.ReadBody | bsd/kcmd.c:944-992 | From the length on: size check, body, decryption, inner length check, each failure with what it leaves behind. |
| KcmdStreams.PacketBounds | bsd/kcmd.c:1037-1055 | Every packet of a writable payload starts with a zero octet, carries the payload's length, and has a body that the reader's size check accepts. |
| KcmdStreams.RecordArrives | bsd/kcmd.c:926-1002 | A packet at the front of the stream is read as its payload, and the receiving state becomes the sender's. |
| KcmdStreams.AnyRecord | bsd/kcmd.c:944-992 | Any length on the wire with anything behind it, an honest record or not: when it is too long, cut short, not deciphered, or contradicted by the length inside, what the read returns, stores and leaves, and which state it goes on from. |
| KcmdStreams.RecordCut | bsd/kcmd.c:937-961 | A packet cut anywhere stores nothing and moves no state; the result is 0 if the length is incomplete and -1 otherwise. |
| KcmdStreams.Resync | bsd/kcmd.c:926-934 | With the length check, any run of non-zero octets in front of the stream changes nothing. |
| KcmdStreams.CheckDiscardsNothing | bsd/kcmd.c:926-934 | From a stream of records, cut off anywhere, any series of reads reports the same octets with the length check and without it. |
| KcmdStreams.OneRead | bsd/kcmd.c:899-1005 | A read that reports something takes exactly that off the front of what is stored and still to come, wherever the stream is cut off. |
| KcmdStreams.ReadsArePrefix | bsd/kcmd.c:899-1061 | For any payloads, any cut of the stream and any read sizes, the octets reported up to the first non-positive return are a prefix of what was written. |
| KcmdStreams.ReadAmount | bsd/kcmd.c:913-1004 | When the store or one more record suffices, a read returns min(len, stored + payload), from the front of the two, and stores what is over. |
| KcmdStreams.EmptyRecordAndEnd | bsd/kcmd.c:913-937 | Stored octets are reported in front of an empty record, and are lost when the read that asks for more meets the end. |
| KcmdSessions.EndsArePaired | bsd/kcmd.c:794-862 | Each end receives with the usage and starting state that the other sends with, in both protocols and for every encryption type. |
| KcmdSessions.DirectionsDiffer | bsd/kcmd.c:835-851 | Under the new protocol the four starting states, or the four usages, of an end all differ. |
| KcmdSessions.SendKeepsInv | bsd/kcmd.c:1040-1060 | A write on one channel keeps all four directions in step. |
| KcmdSessions.ReceiveKeepsInv | bsd/kcmd.c:913-1004 | A read keeps all four directions in step, and reports from the shared store and the next record of its own channel. |
| KcmdSessions.CipherStatesAgree | bsd/kcmd.c:969-1041 | After any interleaving over both channels and both directions each receiving state is the sender's as of the last record taken, and the wire carries exactly the records since. |
| KcmdChannels.RoomyReadsDoNotMix | bsd/kcmd.c:135-137 | If on each channel every read is at least as large as any record sent there, then after any interleaving nothing is stored, what a channel's reads have reported is exactly the records taken from it, and each answered read reports the next one. |
| KcmdChannels.ChannelsKeepApartIff | bsd/kcmd.c:135-137 | With payloads of at most m octets and reads of at least n, every channel of every session is a stream of its own if and only if no payload that can be written is longer than n; given one of m octets can be, if and only if m <= n. |
| KcmdChannels.ChannelsMix | bsd/kcmd.c:913-924 | For every record longer than a read: the read leaves the rest in the store, and a read on the other channel reports it, an octet never written there. |
| TelnetFeedback.StreamInfo.constructor | telnet/libtelnet/enc_des.c:200-210 | The stream starts with everything zero. |
| TelnetFeedback.StreamInfo.StreamIv | telnet/libtelnet/enc_des.c:600-609 | A new vector sets output block and index and leaves the feed. |
| TelnetFeedback.StreamInfo.StreamKey | telnet/libtelnet/enc_des.c:611-627 | A new key restores the output block from the vector and leaves the feed. |
| TelnetFeedback.StreamInfo.EncryptCfb | telnet/libtelnet/enc_des.c:651-674 | In place, the first `c` octets become their ciphertext, the others stay, and the stream state advances by them. |
| TelnetFeedback.StreamInfo.DecryptCfb | telnet/libtelnet/enc_des.c:676-706 | One octet is decrypted and the state advances; -1 undoes the advance of the index. |
| TelnetFeedback.StreamInfo.EncryptOfb | telnet/libtelnet/enc_des.c:727-747 | In place, the first `c` octets are combined with the key stream, the others stay. |
| TelnetFeedback.StreamInfo.DecryptOfb | telnet/libtelnet/enc_des.c:749-777 | One octet is combined with the key stream; -1 undoes the advance of the index. |
| TelnetFeedback.CfbEncryptConcat | telnet/libtelnet/enc_des.c:659-673 | Cutting the text into two calls changes neither the ciphertext nor the final state. |
| TelnetFeedback.OfbConcat | telnet/libtelnet/enc_des.c:735-746 | The same for output feedback. |
| TelnetFeedbackLaws.CfbCallsFollowDiagram | telnet/libtelnet/enc_des.c:641-674 | From an exchanged vector, any text cut into any calls gives the block-chained ciphertext V0 = DES(iV), On = Dn ^ Vn, V(n+1) = DES(On) of section 4 of RFC 2952. |
| TelnetFeedbackLaws.CfbInverse | telnet/libtelnet/enc_des.c:668-705 | Octet-by-octet decryption from the same state returns the text, and both states stay equal. |
| TelnetFeedbackLaws.OfbFollowsFeed | telnet/libtelnet/enc_des.c:727-747 | Output feedback is the block definition started from the feed, not from the vector. |
| TelnetFeedbackLaws.OfbStartsFromIv | telnet/libtelnet/enc_des.c:718-726 | The comment's V0 = DES(iV) is what is computed for every text if and only if DES takes the feed and the vector to the same block; for a one-to-one DES, if and only if they are equal. |
| TelnetFeedbackLaws.OfbInverse | telnet/libtelnet/enc_des.c:735-776 | From equal feeds and indices the receiver recovers the text and ends with an equal feed and index. |
| TelnetFeedbackLaws.CfbBackUp | telnet/libtelnet/enc_des.c:683-705 | decrypt(d), decrypt(-1), decrypt(d') gives the same result and the same state as decrypt(d'). |
| TelnetFeedbackLaws.OfbBackUp | telnet/libtelnet/enc_des.c:756-776 | The same for output feedback. |
| TelnetFeedbackLaws.CfbErrorIsBounded | telnet/libtelnet/enc_des.c:694-705 | Changing one octet of the ciphertext changes the decrypted text at most at that place and in the following block. |
| TelnetNegotiation.Fb.constructor | telnet/libtelnet/enc_des.c:200-210 | Both directions start as failed (-1), with zero vectors and output, without a key and with no start waiting. |
| TelnetNegotiation.Fb.Start | telnet/libtelnet/enc_des.c:235-302 | The state flags, the vector sent and the return value of starting a direction, for every state, with and without a key and with failing randomness; without a key the start is remembered. |
| TelnetNegotiation.Fb.IsOption | telnet/libtelnet/enc_des.c:325-391 | A vector of eight octets is taken and answered with OK; everything else is answered with BAD, with the state each branch leaves. |
| TelnetNegotiation.Fb.ReplyOption | telnet/libtelnet/enc_des.c:415-453 | OK takes the pending vector into use and offers key id 0; BAD clears it and fails; anything else fails. |
| TelnetNegotiation.Fb.Session | telnet/libtelnet/enc_des.c:471-498 | A key is installed in both streams and a start that was waiting for it happens now. |
| TelnetNegotiation.Fb.KeyId | telnet/libtelnet/enc_des.c:520-539 | Only the one-octet id 0 clears the key id flag. |
| TelnetAgreement.SuccessIsEarned | telnet/libtelnet/enc_des.c:235-539 | For any sequence of calls and messages: when the encrypting state is SUCCESS there is a valid key, key id 0 was accepted, and the vector in use is the last one sent and was acknowledged after that. |
| TelnetAgreement.DecryptionNeverSucceeds | telnet/libtelnet/enc_des.c:325-391 | The decrypting state never becomes SUCCESS, whatever happens. |
| TelnetAgreement.VectorsAgree | telnet/libtelnet/enc_des.c:235-539 | Between two sides running this code over FIFO channels, in any order of the negotiation, which is all this system has: at most one vector is sent and outstanding; the state is SUCCESS if and only if a vector has been sent and acknowledged and key id 0 accepted; and then the two ends hold the same vector and, as the negotiation has left them and before the first encrypted octet, the same output block and index. |
| TelnetAgreement.VectorFollowsKey | telnet/libtelnet/enc_des.c:264-497 | A side without a key whose vector has not been sent, after any events that give no key: the key makes it send its vector if and only if a start was asked for before. |
| TelnetAgreement.SuccessIsReached | telnet/libtelnet/enc_des.c:235-539 | A session key and a start, in either order, the vector delivered, the answer delivered and key id 0 bring a side to SUCCESS. |
| TelnetAgreement.AgreementDecrypts | telnet/libtelnet/enc_des.c:641-706 | After SUCCESS what the one side encrypts under a key is the block-chained ciphertext from the agreed vector, and the other decrypts it. |
| TelnetTraffic.OnlyRestarts | telnet/libtelnet/enc_des.c:601-626 | Of the negotiation, only a session key, a good vector and an answer to one write the output block and the index of a stream, and then as its vector and 8. |
| TelnetTraffic.TrafficArrives | telnet/libtelnet/enc_des.c:649-724 | Negotiation, encryption and decryption in any order on both sides, under one key: as long as neither side is given a session key behind the first octet of a direction, what is heard is the beginning of what was said, what is on the way is the rest of the block-chained ciphertext from the acknowledged vector, and the receiver's stream is the sender's as of the last octet heard. |
| TelnetTraffic.SessionBetween | telnet/libtelnet/enc_des.c:614-626 | A session key given to the sender behind its first octet: the second octet is heard combined with two octets of the first feed, which gives what was said if and only if the two are equal. |
| RloginInband.Quote | bsd/krlogind.c:1083-1096 | Quoting never more than doubles a piece. |
| RloginInband.QuoteInto | bsd/krlogind.c:1074-1100 | The loop fills the buffer with exactly the quoted piece and stays inside its double size. |
| RloginInband.Control | bsd/krlogin.c:1390-1406 | The number of octets to take out, the mark handed on, and the restoring of the two flag octets in place. |
| RloginInband.ScanBuffer | bsd/krlogin.c:1483-1506 | The in-place scan leaves in the buffer, and hands on as marks, exactly what decoding by the rescanning definition gives, a flush included. |
| RloginRoundTrip.CleanDataArrives | bsd/krlogin.c:1390-1406 | Data without controls arrives unchanged and triggers nothing, however its flag pairs were quoted. |
| RloginRoundTrip.PairsAreQuoted | bsd/krlogind.c:1083-1096 | Output without two flag octets in a row goes out as it is; the first two that follow each other become FF FF qq, and what is behind them is quoted by itself. |
| RloginRoundTrip.QuotingRoundTrip | bsd/krlogin.c:1483-1506 | Any cut of the server's output into chunks, quoted one by one and joined in one client buffer, is restored without a mark if and only if the output nowhere has FF FF followed by qq, or by oo and one more octet. |
| RloginRoundTrip.MarkIsHandedOn | bsd/krlogin.c:1484-1505 | A mark behind clean output is handed on and leaves no trace; one that asks for a flush empties the buffer, what followed it included. |
| RloginWindows.StripBuffer | bsd/krlogind.c:1027-1040 | The server's in-place loop leaves the keystrokes and takes out the window sizes, in order. |
| RloginWindows.WindowsComeApart | bsd/krlogin.c:1259-1273 | Keystrokes and window messages in any order come apart again at the server, if no typed octet begins what looks like a whole message there. |
| RloginWindows.ReadsComeApart | bsd/krlogind.c:1016-1040 | They come apart for any reads in which they arrive, each stripped by itself, if no read ends within a window message. |
| RloginWindows.CutMessageIsTyped | bsd/krlogind.c:1016-1040 | A window message cut by two reads at any place is not recognised: all its octets are typed at the shell. |
| RloginWindows.FalseWindowMadeGood | bsd/krlogind.c:1027-1040 | That condition is not needed when window changes are mixed in: a session in which a message makes up for the text it is mistaken with. |
| RloginWindows.TypedTextPasses | bsd/krlogind.c:1027-1040 | Typed text passes the server's loop unchanged if and only if a window message can nowhere be read in it; otherwise it loses octets. |
| RloginEscapes.Writer.Fill | bsd/krlogin.c:1133-1143 | Only when nothing is left over is the next read fetched. |
| RloginEscapes.Writer.ReadWrapper | bsd/krlogin.c:1120-1178 | A prefix of the keys waiting is returned, at most `size` of them, ending at an escape character at the beginning of a line, with the flag and the line state that follow. |
| RloginEscapes.Writer.AfterEscape | bsd/krlogin.c:1055-1103 | The event that the key behind an escape character causes: end, stop, or one or two octets sent. |
| RloginEscapes.Writer.Write | bsd/krlogin.c:1029-1105 | For any cut of the keyboard input into reads the events are those of one transducer over single keys that tracks the beginning of a line. |
| RloginEscapes.CutDoesNotMatter | bsd/krlogin.c:1120-1178 | Two cuts of the same input give the same events. |
| RloginEscapes.PlainKeysAreSent | bsd/krlogin.c:1157-1166 | Keys without an escape character at the beginning of a line are sent as they are. |
| RloginEscapes.KeyAfterEscape | bsd/krlogin.c:1055-1103 | Every key behind a line-start escape character: a period or the end-of-file key ends the session with nothing sent after it, a suspend key stops unless that is switched off, the escape character is sent once, any other key is sent behind the escape character. |
| RloginEscapes.DoublingIsTransparent | bsd/krlogin.c:1055-1103 | Any text, typed with each line-start escape character doubled, reaches the server as it is, unless the escape character is one of the keys that act. |
| RloginEscapes.DoublingFails | bsd/krlogin.c:1060-1088 | If it is one of them, the doubled character is not sent. |
| FtpSecure.LoopingWrite | gssftp/ftp/secure.c:79-100 | However much each write takes, exactly the buffer goes out. |
| FtpSecure.Full | gssftp/ftp/secure.c:178-183 | Only blocks of exactly the wrap limit leave the queue by themselves. |
| FtpSecure.Tail | gssftp/ftp/secure.c:178-183 | What stays queued is less than the wrap limit. |
| FtpSecure.NothingLost | gssftp/ftp/secure.c:174-184 | The full blocks followed by the rest are what was queued. |
| FtpSecure.QueueInParts | gssftp/ftp/secure.c:174-184 | Queueing in two goes gives the same blocks and rest as queueing at once. |
| FtpSecure.Secure.constructor | gssftp/ftp/secure.c:60-74 | A session starts with an empty queue, nothing received and no end of transfer remembered. |
| FtpSecure.Secure.PutBuf | gssftp/ftp/secure.c:248-305 | One block goes out as the big-endian length of its token and the token. |
| FtpSecure.Secure.PutByte | gssftp/ftp/secure.c:167-185 | The octet is queued, the queue leaves as one block when it reaches the limit, and between calls it is shorter than that; the one place of the shared buffer that it overwrites is stated, and a receiving half without unread octets is untouched. |
| FtpSecure.Secure.Write | gssftp/ftp/secure.c:226-241 | Writing a buffer is queueing all of its octets, with what that leaves of the shared buffer. |
| FtpSecure.Secure.Flush | gssftp/ftp/secure.c:192-205 | What is queued leaves as one block, an empty block follows, and nothing stays queued. |
| FtpSecure.Secure.GetByte | gssftp/ftp/secure.c:307-371 | The next octet of the open block, or of the next one; EOF at an empty block; ERR for a short length, a length above the buffer size, a short token or one that does not unwrap. |
| FtpSecure.Secure.Read | gssftp/ftp/secure.c:388-408 | A read gathers octets until it has enough or the transfer ends, remembers an end that it met after delivering something, and reports the next read as empty then. |
| FtpSecureStreams.AnyMixSendsTheSame | gssftp/ftp/secure.c:207-241 | Any mix of `secure_putc` and `secure_write` sends the same blocks as one write of all the octets. |
| FtpSecureStreams.BlocksOfTransfer | gssftp/ftp/secure.c:192-241 | A transfer is a series of non-empty blocks within the limit that hold exactly its octets, and an empty block. |
| FtpSecureStreams.CallsSend | gssftp/ftp/secure.c:167-241 | A list of calls ended by a flush puts exactly those blocks on the wire and leaves the queue empty. |
| FtpSecureStreams.FrameOpens | gssftp/ftp/secure.c:315-363 | A block comes off the wire as it went in. |
| FtpSecureStreams.ReadDelivers | gssftp/ftp/secure.c:388-408 | A read of positive size returns min(size, rest) octets of the transfer, and nothing exactly when the transfer is used up, standing at the next transfer then. |
| FtpSecureStreams.TransferDelivers | gssftp/ftp/secure.c:388-408 | Reads of any positive sizes up to the first empty one return exactly the transfer. |
| FtpSecureStreams.TransfersArrive | gssftp/ftp/secure.c:167-408 | Any number of transfers, any mix of calls in each, any positive read sizes: each is read back octet for octet and ends with exactly one zero return. |
| FtpSecureStreams.DamageFails | gssftp/ftp/secure.c:315-408 | Blocks followed by a place where the stream ends within a length or a token, announces more than the buffer, or does not unwrap: reads deliver everything in front of it; the read that reaches it fails and loses what it gathered, and where the next one goes on is stated. |
| FtpAscii.SendData | gssftp/ftpd/ftpd.c:1400-1410 | The server's loop sends the wire form, and counts octets of the file. |
| FtpAscii.SendRequest | gssftp/ftp/ftp.c:968-990 | The client's loop sends the wire form, and counts octets of the wire. |
| FtpAscii.ReceiveData | gssftp/ftpd/ftpd.c:1501-1518 | The server's nested loops store what the wire form means, for every octet stream, and count the line feeds that came without a CR. |
| FtpAscii.RecvRequest | gssftp/ftp/ftp.c:1298-1322 | The client's nested loops do the same, with or without stripping, and count every octet of the wire. |
| FtpAsciiLaws.ReceivedIsSent | gssftp/ftpd/ftpd.c:1400-1410 | Receiving what was sent gives the file without each NUL that directly follows a CR, and no bare line feed. |
| FtpAsciiLaws.TransferIsIdentity | gssftp/ftpd/ftpd.c:1501-1518 | A transfer is the identity if and only if the data has no CR NUL. |
| FtpAsciiLaws.LineGoesOut | gssftp/ftpd/ftpd.c:1400-1410 | A line goes out as it is, and CR LF in the place of the LF behind it. |
| FtpAsciiLaws.LineComesIn | gssftp/ftp/ftp.c:1298-1322 | What comes without CR is stored as it is; CR LF is stored as LF or, unstripped, as CR LF, CR NUL as CR, CR CR as a CR and another look at the second, CR and anything else as both. |
| FtpAsciiLaws.BareLfsAreCounted | gssftp/ftpd/ftpd.c:1501-1518 | The count is of the line feeds that do not stand directly behind a CR, whatever is stripped. |
| FtpAsciiLaws.UnstrippedIsWire | gssftp/ftp/ftp.c:1308-1315 | Without stripping the client stores the wire form itself, less the NULs that follow a CR. |
| FtpAsciiLaws.SentAgain | gssftp/ftpd/ftpd.c:1501-1518 | A received file is sent again as the same octets if and only if no line feed came bare and no CR NUL came. |
| FtpAsciiLaws.SkipTo | gssftp/ftpd/ftpd.c:1127-1141 | The skip loop, of `retrieve`, `store_file` and the client alike, stops where the definition says or fails with it. |
| FtpAsciiLaws.SkipIsWireOffset | gssftp/ftp/ftp.c:1280-1288 | The loop stops at the first character at which the wire form reaches the restart point, and fails if and only if the wire form of the file is shorter. |
| FtpAsciiLaws.DownloadResumes | gssftp/ftp/ftp.c:1276-1322 | For a local prefix of the remote file and any offset within its wire form, inside a CR LF too: both skip loops stop at the same character; kept part plus received part is the remote file if and only if no CR NUL follows from there; the file as it is left, which is not cut, is the remote one on the same condition if it was shorter, and if it was complete, exactly if what is received repeats what stands there. |
| FtpAsciiLaws.UploadResumes | gssftp/ftp/ftp.c:884-902 | An upload resumed at offset n onto a shorter part: the file the server is left with, which is patched and not cut, is the client's if and only if no line feed is among the first n - 1 octets and no CR NUL follows octet n, since the client seeks in octets of the file and the server skips octets of the wire form. Onto the complete file: if and only if what is received repeats what stands where it is written. |
| FtpAsciiLaws.CompleteUploadMayStay | gssftp/ftpd/ftpd.c:1180-1212 | A file of four line feeds that is complete at the server stays as it is although the server skips to another octet than the client seeks to. |
| FtpProtected.GetcsDeliver | gssftp/ftp/secure.c:373-384 | `secure_getc` up to its first negative return delivers exactly the rest of the transfer. |
| FtpProtected.ProtectedText | gssftp/ftpd/ftpd.c:1400-1410 | A text sent by `secure_putc` and a flush and received by `secure_getc` arrives without the NULs that follow a CR, and as it was if and only if there are none; the channel stands at the next transfer. |
| FtpRadix.EncodeText | gssftp/ftp/radix.c:54-74 | The encoding loop writes exactly the Base64 text of the octets by groups of three (section 4 of RFC 4648), padded, and a NUL behind it, within its buffer. |
| FtpRadix.DecodeText | gssftp/ftp/radix.c:25-52 | The decoding loop returns the octets, or the code of the error, that the definition by groups of four gives for every text. |
| FtpRadix.Place | gssftp/ftp/radix.c:26-27 | The search finds the first place of a character in the alphabet, or none. |
| FtpRadix.Alphabet | gssftp/ftp/radix.c:9-10 | The table is the one of section 4 of RFC 4648. |
| FtpRadix.GroupIsNumber | gssftp/ftp/radix.c:55-69 | Three octets and their four digits are the same 24-bit number; one or two octets left over are filled up with zero bits. |
| FtpRadix.EncodeByGroups | gssftp/ftp/radix.c:54-74 | Whole groups are coded one by one, and padding depends on what is left over alone. |
| FtpRadix.TestVectors | gssftp/ftp/radix.c:54-74 | The test vectors of section 10 of RFC 4648. |
| FtpRadix.DecodeMeans | gssftp/ftp/radix.c:25-52 | Of every text: which digits are read, and which error or which octets follow from their number, the spare bits of the last one and the padding. |
| FtpRadix.RoundTrip | gssftp/ftp/radix.c:14-77 | Decoding an encoding returns the input, for every octet string. |
| FtpRadix.AcceptedIsCanonical | gssftp/ftp/radix.c:44-51 | An accepted text re-encodes to itself if and only if its scan ends at the NUL or off a four-character boundary. |
| FtpRadix.AnythingAfterPad | gssftp/ftp/radix.c:25-52 | After a pad character on a four-character boundary any text is accepted. |
| Glob.RangeIsExact | gssftp/ftp/glob.c:464-466 | A range in a class means what lies between its ends if and only if it ascends; a descending one matches its two ends. |
| Glob.ClassScanIs | gssftp/ftp/glob.c:455-477 | The class scan accepts exactly the members of the class and stops behind its closing bracket. |
| Glob.MatchClass | gssftp/ftp/glob.c:455-477 | The loop does what the scan defines. |
| Glob.FindClose | gssftp/ftp/glob.c:344-363 | The first loop of `execbrc` finds the brace that closes the group. |
| Glob.TryAlternative | gssftp/ftp/glob.c:384-400 | Cutting the alternative out and joining what follows the group gives the pattern with the alternative in the group's place, and matches what that accepts. |
| Glob.ExecBrc | gssftp/ftp/glob.c:332-417 | A group matches if and only if one of its alternatives in its place does, for nested groups too. |
| Glob.SkipStars | gssftp/ftp/glob.c:484-487 | A run of stars is as one. |
| Glob.AnySuffix | gssftp/ftp/glob.c:492-497 | The star loop accepts if and only if the rest of the pattern accepts some suffix of the name. |
| Glob.Amatch | gssftp/ftp/glob.c:437-533 | `amatch` terminates and accepts exactly the names that the inductive meaning of the pattern accepts. |
| Glob.Match | gssftp/ftp/glob.c:419-435 | A leading dot must be matched by a dot that begins the pattern. |
| GlobMeaning.AcceptsIsMeant | gssftp/ftp/glob.c:437-533 | A name is accepted if and only if some brace expansion matches it piece by piece, under the declared meaning of literals, `?`, `*` and classes. |
| GlobMeaning.ExpansionsBraceFree | gssftp/ftp/glob.c:332-417 | Expansions hold no groups any more. |
| GlobMeaning.MatchName | gssftp/ftp/glob.c:419-533 | The matcher as called accepts a name exactly when an expansion of the pattern matches it, and a leading dot is met by a dot. |
| GlobTexts.StarText | gssftp/ftp/glob.c:479-497 | The text t*u accepts exactly the names that begin with t and end with u without overlap. |
| GlobTexts.QuestionText | gssftp/ftp/glob.c:507-510 | The text t?u accepts exactly t, one character, u. |
| GlobTexts.ClassText | gssftp/ftp/glob.c:453-477 | The text t[xa-b]u accepts exactly t, then x or a character from a to b, then u. |
| GlobTexts.BracesText | gssftp/ftp/glob.c:332-417 | The text t{a,b}u accepts exactly tau and tbu. |
| Utmp.Database.GetLine | libpty/update_utmp.c:474-482 | The next entry on the searched line, and the cursor behind it. |
| Utmp.Database.ByPid | libpty/update_utmp.c:415-467 | The first login or user entry that has the search's pid and its line or its id, or none. |
| Utmp.Database.BestOnLine | libpty/update_utmp.c:472-484 | The position of the entry that the preference settles on. |
| Utmp.Database.Reread | libpty/update_utmp.c:485-491 | The second pass returns the entry on that position: the one the first pass chose. |
| Utmp.Database.BestEntry | libpty/update_utmp.c:447-492 | The search returns the entry that the definition of the choice names. |
| Utmp.UserSearchChooses | libpty/update_utmp.c:447-492 | Not for a dead process, and of the file alone: the first login or user entry with the search's non-zero pid and line or id wins; otherwise, if the search has an id, the first of them on its line with that id; otherwise the first login entry on the line with an id. |
| Utmp.PidIsTaken | libpty/update_utmp.c:415-467 | Every search with a pid: the first login or user entry with that pid and the search's line or id is chosen; if there is none, what a search without a pid would choose. |
| Utmp.SameIdWins | libpty/update_utmp.c:377-387 | The first entry with the search's id wins for every kind of search. |
| Utmp.DeadSearchChooses | libpty/update_utmp.c:383-402 | For a dead process that no pid matches: the first entry on the line with its id; otherwise, from the first entry with an id on, each next entry of another id and another kind is taken for better, and the last one reached wins. |
| Utmp.LastRunIsTaken | libpty/update_utmp.c:383-402 | With distinct ids that is the first entry of the last run of its kind. |

## Left out

Operating system and libraries:

- Sockets, ptys, signals, fork and exec, select loops, terminal modes, syslog. Reads and writes that move only a part of what is asked for are modelled, interrupted and failing ones are not.
- Kerberos, GSSAPI and DES themselves: invertible functions with a length bound and a state, and an uninterpreted block function.
- Option parsing, logins, authorisation, the ftp command channel, telnet option parsing and the doubling of IAC in sub-options (telnet/libtelnet/encrypt.c is not part of this model: its calls come in any order).

rcp:

- RcpTransfer.LockStep: for trees whose lines, paths and complaints fit the buffers (`Roomy`); `sink` itself reads a line of any length here, although its buffer has RCP_BUFSIZ characters.
- RcpLanding.TreesArrive: paths are compared as strings, so links and names such as `..` are not followed; several sources need a directory as their target, which the program asks for too.
- Failing `utimes`, `ftruncate`, `write`, `read` and `malloc`, which send an extra message or none, files that cannot be read at the source, and names that are too long for it.
- Links, special files, copying without -r, several sources with a target that must be a directory, and transfers between two remote hosts.
- Sizes and times have no width limit, and modes no file type bits; reads of many octets are steps of one octet each.

Record layer:

- Kcmd.Stream.Read: a negative return of `read` other than an interrupted call.
- The unencrypted mode, and payloads longer than the output packet beyond their error return.

Telnet:

- TelnetAgreement.VectorsAgree: the channels deliver whole sub-option payloads in order; the key ids offered by the peer are arbitrary calls; encrypted text is not part of this system, and a session key given later restarts one side's output and index alone.
- TelnetTraffic.TrafficArrives: cipher feedback, with one block function for both sides and the two directions; only this direction, since a session key given to both sides while nothing is on the way does no harm; output feedback starts from feeds that nothing makes equal (`TelnetFeedbackLaws.OfbStartsFromIv`). The marks that switch encryption on and off in the stream belong to telnet/libtelnet/encrypt.c.
- `fb64_printsub` and debugging output.

rlogin:

- RloginRoundTrip.QuotingRoundTrip: for output that the client reads into one buffer; a control split across two client reads is not recognised by the code.
- RloginWindows.WindowsComeApart: only this direction once window changes are mixed in, since a message that was sent can make up for octets taken from the text before it (`RloginWindows.FalseWindowMadeGood`); for text alone `RloginWindows.TypedTextPasses` goes both ways. It is for one read of the server, which strips each read by itself.
- RloginWindows.ReadsComeApart: only this direction, since a message that is cut may hold octets that look like another one.
- RloginEscapes.Writer.Write: with the question before ending a session switched off, as it is by default, and no failing write to the remote side.

ftp:

- FtpAsciiLaws.UploadResumes: for offsets within the client's file and within the wire form of the server's, whose file is a beginning of the client's or all of it.
- FtpSecure.Secure.PutByte: with a fixed buffer size and a wrap size limit that is not zero; with a limit of zero the queue would grow past its buffer.
- FtpSecure.Secure.GetByte: what it leaves of octets that are queued for sending, which a new block overwrites in the buffer they share.
- FtpSecure.Secure.Read: the same.
- The clear protection level, where the protected functions only pass on to the system.
- FtpRadix.EncodeText: shifts and masks are written as quotients and remainders, and an OR of disjoint bits as a sum.
- FtpAscii.ReceiveData: a protected channel that fails in the middle of a transfer, and the server's own count of octets.
- Progress output, aborts by the user, record and block modes, TYPE E.

Patterns:

- Glob.Amatch: for patterns without slashes, with balanced braces, 7-bit characters and classes whose members are single characters and ascending ranges that do not end in `]` or `-`; the copy buffer of `execbrc` has no size limit here.
- Glob.ExecBrc: for the same patterns.
- Glob.Match: for the same patterns.
- GlobMeaning.MatchName: for the same patterns.
- Descending into directories, `~` and sorting.

utmp:

- Writing the entry, wtmp and lastlog.
