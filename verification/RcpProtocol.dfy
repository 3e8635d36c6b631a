/** The two ends of an rcp transfer (bsd/krcp.c) as step machines joined by two FIFO
    channels.  `source` and `rsource` walk a tree and send records and data; `sink`
    obeys the records on a file system; each waits for the other's one-octet replies. */
module RcpProtocol {
  import opened Wrappers
  import opened RcpRecords

  // ---------- what is sent and what it is stored in ----------

  datatype Node =
    | File(name: string, mode: bv12, mtime: int, atime: int, data: string)
    | Dir(name: string, mode: bv12, mtime: int, atime: int, children: seq<Node>)

  /** `times` is None while they are whatever the system last set them to. */
  datatype Entry =
    | FileEntry(mode: bv12, times: Option<Times>, content: string)
    | DirEntry(mode: bv12, times: Option<Times>)

  type FileSystem = map<string, Entry>

  /** `denied` holds the paths that the sink's system refuses to create or open, with the reason.
      `sinkRemote` is the sink's `iamremote`; the source's is its negation. */
  datatype Config = Config(pflag: bool, sinkRemote: bool, umask: bv12, denied: map<string, string>)

  /** A target of `sink` and whether it was a directory when `sink` was entered. */
  datatype Place = Place(targ: string, isDir: bool)

  const NOT_A_DIRECTORY := "Not a directory"
  const IS_A_DIRECTORY := "Is a directory"

  function PathIn(p: Place, name: string): string {
    if p.isDir then p.targ + (if p.targ == "" then "" else "/") + name else p.targ
  }

  predicate TooLong(p: Place, name: string) {
    if p.isDir then |p.targ| + |name| + 2 >= RCP_BUFSIZ else |p.targ| + 1 >= RCP_BUFSIZ
  }

  /** Why `path` cannot be opened for writing or be entered as a directory, if it cannot. */
  function Obstacle(cfg: Config, fs: FileSystem, path: string, asDir: bool): Option<string> {
    if asDir then
      if path in fs then if fs[path].FileEntry? then Some(NOT_A_DIRECTORY) else None
      else if path in cfg.denied then Some(cfg.denied[path]) else None
    else if path in cfg.denied then Some(cfg.denied[path])
    else if path in fs && fs[path].DirEntry? then Some(IS_A_DIRECTORY)
    else None
  }

  function Created(cfg: Config, mode: bv12): bv12 {
    if cfg.pflag then mode else mode & !cfg.umask
  }

  /** Adding a name to a directory changes the directory's own times. */
  function Touch(fs: FileSystem, dir: string): FileSystem {
    if dir in fs && fs[dir].DirEntry? then fs[dir := fs[dir].(times := None)] else fs
  }

  function MakeDirectory(cfg: Config, fs: FileSystem, parent: string, path: string, mode: bv12): FileSystem {
    if path in fs then if cfg.pflag then fs[path := fs[path].(mode := mode)] else fs
    else Touch(fs, parent)[path := DirEntry(Created(cfg, mode), None)]
  }

  function OpenFile(cfg: Config, fs: FileSystem, parent: string, path: string, mode: bv12): FileSystem {
    if path in fs then if cfg.pflag then fs[path := fs[path].(mode := mode)] else fs
    else Touch(fs, parent)[path := FileEntry(Created(cfg, mode), None, "")]
  }

  /** Writing from the start of a file that is not cut beforehand. */
  function Overwritten(before: string, data: string): string {
    data + if |data| <= |before| then before[|data|..] else ""
  }

  function Truncated(content: string, size: nat): string {
    if size <= |content| then content[..size] else content + seq(size - |content|, i => '\0')
  }

  function StoreContent(fs: FileSystem, path: string, got: string): FileSystem {
    if path in fs && fs[path].FileEntry? then
      fs[path := fs[path].(content := Truncated(Overwritten(fs[path].content, got), |got|), times := None)]
    else fs
  }

  function Stamp(fs: FileSystem, path: string, t: Option<Times>): FileSystem {
    if t.Some? && path in fs then fs[path := fs[path].(times := t)] else fs
  }

  // ---------- response() ----------

  datatype Reply = Fresh | Reading(code: char, count: nat)
  datatype Verdict = More(reply: Reply) | Accepted | Refused | Quit

  /** One octet read by `response`. */
  function ReplyStep(r: Reply, c: char): Verdict {
    match r
    case Fresh =>
      if c == '\0' then Accepted
      else if c == ERROR_MARK || c == FATAL_MARK then More(Reading(c, 0))
      else More(Reading(c, 1))
    case Reading(code, count) =>
      if c == '\n' || count + 1 >= RCP_BUFSIZ then if code == ERROR_MARK then Refused else Quit
      else More(Reading(code, count + 1))
  }

  // ---------- source and rsource ----------

  datatype Task =
    | AwaitGreeting
    | Visit(n: Node)
    | AwaitTimes(n: Node)
    | Announce(n: Node)
    | AwaitHeader(n: Node)
    | SendBody(n: Node, sent: nat)
    | AwaitStored
    | Leave
    | AwaitLeave

  /** `tasks` is the source's call stack, the running call first. */
  datatype Source = Source(tasks: seq<Task>, reply: Reply, errs: nat, exited: bool)

  datatype Move<S> = Blocked | Move(next: S, taken: nat, sent: string)

  function Header(n: Node): string {
    match n
    case File(name, mode, _, _, data) => FileLine(mode, |data|, name)
    case Dir(name, mode, _, _, _) => DirectoryLine(mode, name)
  }

  function Visits(ns: seq<Node>): seq<Task> {
    if ns == [] then [] else [Visit(ns[0])] + Visits(ns[1..])
  }

  function OnAccept(t: Task): seq<Task> {
    match t
    case AwaitTimes(n) => [Announce(n)]
    case AwaitHeader(n) => if n.File? then [SendBody(n, 0)] else Visits(n.children) + [Leave]
    case _ => []
  }

  predicate SourceDone(s: Source) { s.exited || s.tasks == [] }

  function SourceAwaits(cfg: Config, s: Source, inbox: string, eof: bool): Move<Source>
    requires s.tasks != []
  {
    if inbox == "" then
      if eof then Move(s.(exited := true), 0, "") else Blocked
    else
      match ReplyStep(s.reply, inbox[0])
      case More(r) => Move(s.(reply := r), 1, "")
      case Accepted => Move(s.(tasks := OnAccept(s.tasks[0]) + s.tasks[1..], reply := Fresh), 1, "")
      case Refused =>
        Move(s.(tasks := s.tasks[1..], reply := Fresh, errs := s.errs + 1,
                exited := s.tasks[0].AwaitGreeting? && cfg.sinkRemote), 1, "")
      case Quit => Move(s.(errs := s.errs + 1, exited := true), 1, "")
  }

  /** The source's next action when `inbox` is waiting to be read. */
  function SourceMove(cfg: Config, s: Source, inbox: string, eof: bool): Move<Source> {
    if SourceDone(s) then Blocked else
    var rest := s.tasks[1..];
    match s.tasks[0]
    case Visit(n) =>
      if cfg.pflag then
        Move(s.(tasks := [AwaitTimes(n)] + rest), 0, Printed(TimesLine(n.mtime, n.atime) + "\n"))
      else
        Move(s.(tasks := [Announce(n)] + rest), 0, "")
    case Announce(n) => Move(s.(tasks := [AwaitHeader(n)] + rest), 0, Printed(Header(n) + "\n"))
    case SendBody(n, sent) =>
      if n.File? && sent < |n.data| then
        var end := if sent + RCP_BUFSIZ <= |n.data| then sent + RCP_BUFSIZ else |n.data|;
        Move(s.(tasks := [SendBody(n, end)] + rest), 0, n.data[sent..end])
      else
        Move(s.(tasks := [AwaitStored] + rest), 0, ACK)
    case Leave => Move(s.(tasks := [AwaitLeave] + rest), 0, "E\n")
    case _ => SourceAwaits(cfg, s, inbox, eof)
  }

  // ---------- sink ----------

  /** The locals of one call of `sink`. */
  datatype Frame = Frame(place: Place, first: bool, setimes: Option<Times>)

  datatype Phase =
    | ReadLine(line: string)
    | ReadData(path: string, size: nat, got: string)
    | AwaitReply(path: string, reply: Reply)

  /** `frames` is the sink's call stack, the running call first. */
  datatype Sink = Sink(frames: seq<Frame>, phase: Phase, fs: FileSystem, errs: nat, exited: bool)

  predicate SinkDone(s: Sink) { s.exited || s.frames == [] }

  /** `error` reaches the peer only from the remote side. */
  function Reported(cfg: Config, message: string): string {
    if cfg.sinkRemote then message else ""
  }

  function Give(cfg: Config, s: Sink, reason: string, taken: nat): Move<Sink> {
    Move(s.(errs := s.errs + 1, exited := true), taken,
         Reported(cfg, [ERROR_MARK] + Clipped("rcp: protocol screwup: " + reason + "\n")))
  }

  /** The return of the running call of `sink`, and what its caller does next. */
  function Returned(s: Sink): Sink
    requires s.frames != []
  {
    var outer := s.frames[1..];
    if outer == [] then s.(frames := [], phase := ReadLine(""))
    else s.(frames := [outer[0].(setimes := None)] + outer[1..],
            phase := ReadLine(""),
            fs := Stamp(s.fs, s.frames[0].place.targ, outer[0].setimes))
  }

  /** The file is written once all of its octets are here. */
  function Receive(s: Sink, path: string, size: nat, got: string): Sink {
    if |got| >= size then s.(fs := StoreContent(s.fs, path, got), phase := AwaitReply(path, Fresh))
    else s.(phase := ReadData(path, size, got))
  }

  function Obey(cfg: Config, s: Sink, c: Command): Move<Sink>
    requires s.frames != []
  {
    var f := s.frames[0].(first := false);
    var outer := s.frames[1..];
    var s' := s.(frames := [f] + outer, phase := ReadLine(""));
    match c
    case Complaint(_, fatal) =>
      if fatal then Move(s.(exited := true), 1, "") else Move(s'.(errs := s.errs + 1), 1, "")
    case LeaveDirectory => Move(Returned(s'), 1, ACK)
    case SetTimes(t) => Move(s'.(frames := [f.(setimes := Some(t))] + outer), 1, ACK)
    case Foreign(text) =>
      Move(s.(errs := s.errs + 1, exited := true), 1, Reported(cfg, [ERROR_MARK] + Clipped(text + "\n")))
    case Screwup(reason) => Give(cfg, s, reason, 1)
    case EnterDirectory(mode, name) =>
      if TooLong(f.place, name) then Give(cfg, s, "target name too long", 1) else
      var path := PathIn(f.place, name);
      (match Obstacle(cfg, s.fs, path, true)
       case Some(why) => Move(s'.(errs := s.errs + 1), 1, Reported(cfg, ErrorMessage(path, why)))
       case None =>
         var fs := MakeDirectory(cfg, s.fs, f.place.targ, path, mode);
         Move(s'.(fs := fs, frames := [Frame(Place(path, path in fs && fs[path].DirEntry?), true, None), f] + outer),
              1, ACK))
    case StoreFile(mode, size, name) =>
      if TooLong(f.place, name) then Give(cfg, s, "target name too long", 1) else
      var path := PathIn(f.place, name);
      (match Obstacle(cfg, s.fs, path, false)
       case Some(why) => Move(s'.(errs := s.errs + 1), 1, Reported(cfg, ErrorMessage(path, why)))
       case None => Move(Receive(s'.(fs := OpenFile(cfg, s.fs, f.place.targ, path, mode)), path, size, ""), 1, ACK))
  }

  /** The end of a file's record: its times, and the acknowledgement. */
  function Settled(s: Sink, path: string): Sink
    requires s.frames != []
  {
    var f := s.frames[0];
    s.(fs := Stamp(s.fs, path, f.setimes),
       frames := [f.(setimes := None)] + s.frames[1..],
       phase := ReadLine(""))
  }

  /** The sink's next action when `inbox` is waiting to be read. */
  function SinkMove(cfg: Config, s: Sink, inbox: string, eof: bool): Move<Sink> {
    if SinkDone(s) || (inbox == "" && !eof) then Blocked
    else if inbox == "" then
      match s.phase
      case ReadLine(line) => if line == "" then Move(Returned(s), 0, "") else Give(cfg, s, "lost connection", 0)
      case ReadData(_, _, _) =>
        Move(s.(errs := s.errs + 1, exited := true), 0, Reported(cfg, [ERROR_MARK] + "rcp: dropped connection"))
      case AwaitReply(_, _) => Move(s.(exited := true), 0, "")
    else
      var c := inbox[0];
      match s.phase
      case ReadLine(line) =>
        if c == '\n' then Obey(cfg, s, Parse(line, s.frames[0].first))
        else Move(s.(phase := ReadLine(line + [c])), 1, "")
      case ReadData(path, size, got) => Move(Receive(s, path, size, got + [c]), 1, "")
      case AwaitReply(path, reply) =>
        match ReplyStep(reply, c)
        case More(r) => Move(s.(phase := AwaitReply(path, r)), 1, "")
        case Accepted => Move(Settled(s, path), 1, ACK)
        case Refused => Move(Settled(s, path).(errs := s.errs + 1), 1, ACK)
        case Quit => Move(s.(errs := s.errs + 1, exited := true), 1, "")
  }

  // ---------- both ends and the channels between them ----------

  datatype Net = Net(src: Source, snk: Sink, toSink: string, toSource: string)

  datatype Side = AtSource | AtSink

  function SourceTurn(n: Net, m: Move<Source>): Option<Net> {
    if m.Move? && m.taken <= |n.toSource| then
      Some(n.(src := m.next, toSource := n.toSource[m.taken..], toSink := n.toSink + m.sent))
    else None
  }

  function SinkTurn(n: Net, m: Move<Sink>): Option<Net> {
    if m.Move? && m.taken <= |n.toSink| then
      Some(n.(snk := m.next, toSink := n.toSink[m.taken..], toSource := n.toSource + m.sent))
    else None
  }

  /** One side moves; at the end of the peer's output a read reports end of file. */
  function Step(cfg: Config, n: Net, side: Side): Option<Net> {
    match side
    case AtSource => SourceTurn(n, SourceMove(cfg, n.src, n.toSource, SinkDone(n.snk)))
    case AtSink => SinkTurn(n, SinkMove(cfg, n.snk, n.toSink, SourceDone(n.src)))
  }

  /** The state after the two sides have moved in the given order, if every move was possible. */
  function Run(cfg: Config, n: Net, order: seq<Side>): Option<Net>
    decreases order
  {
    if order == [] then Some(n) else
    match Step(cfg, n, order[0])
    case None => None
    case Some(m) => Run(cfg, m, order[1..])
  }

  predicate Terminal(cfg: Config, n: Net) {
    Step(cfg, n, AtSource).None? && Step(cfg, n, AtSink).None?
  }

  /** Both calls have returned and nothing is left on the wire. */
  predicate Finished(n: Net) {
    !n.src.exited && n.src.tasks == [] && !n.snk.exited && n.snk.frames == [] && n.toSink == "" && n.toSource == ""
  }

  /** Each side waits for the other to speak first. */
  predicate Deadlocked(cfg: Config, n: Net) {
    Terminal(cfg, n) && !SourceDone(n.src) && !SinkDone(n.snk) && n.toSink == "" && n.toSource == ""
  }

  /** The sink has just sent its greeting and the source has been asked for `roots`. */
  function Start(roots: seq<Node>, targ: string, fs: FileSystem): Net {
    var place := Place(targ, targ in fs && fs[targ].DirEntry?);
    Net(Source([AwaitGreeting] + Visits(roots), Fresh, 0, false),
        Sink([Frame(place, true, None)], ReadLine(""), fs, 0, false),
        "", ACK)
  }

  // ---------- the order of moves does not matter ----------

  /** A move stays possible, and leads to the same place, after the other side has moved. */
  lemma MovesCommute(cfg: Config, n: Net)
    requires Step(cfg, n, AtSource).Some? && Step(cfg, n, AtSink).Some?
    ensures Step(cfg, Step(cfg, n, AtSource).value, AtSink).Some?
    ensures Step(cfg, Step(cfg, n, AtSource).value, AtSink) == Step(cfg, Step(cfg, n, AtSink).value, AtSource)
  {
    BothAwake(cfg, n);
    var a := SourceMove(cfg, n.src, n.toSource, false);
    var b := SinkMove(cfg, n.snk, n.toSink, false);
    SinkAheadOfTail(cfg, n.snk, n.toSink, a.sent, SourceDone(a.next));
    SourceAheadOfTail(cfg, n.src, n.toSource, b.sent, SinkDone(b.next));
    TurnsCommute(n, a, b);
  }

  lemma BothAwake(cfg: Config, n: Net)
    requires Step(cfg, n, AtSource).Some? && Step(cfg, n, AtSink).Some?
    ensures !SourceDone(n.src) && !SinkDone(n.snk) && n.toSink != ""
  {
  }

  lemma TurnsCommute(n: Net, a: Move<Source>, b: Move<Sink>)
    requires SourceTurn(n, a).Some? && SinkTurn(n, b).Some?
    ensures SinkTurn(SourceTurn(n, a).value, b).Some?
    ensures SinkTurn(SourceTurn(n, a).value, b) == SourceTurn(SinkTurn(n, b).value, a)
  {
    assert (n.toSink + a.sent)[b.taken..] == n.toSink[b.taken..] + a.sent;
    assert (n.toSource + b.sent)[a.taken..] == n.toSource[a.taken..] + b.sent;
  }

  lemma SinkAheadOfTail(cfg: Config, s: Sink, inbox: string, more: string, eof: bool)
    requires inbox != ""
    ensures SinkMove(cfg, s, inbox + more, eof) == SinkMove(cfg, s, inbox, false)
  {
    assert (inbox + more)[0] == inbox[0];
  }

  lemma SourceAheadOfTail(cfg: Config, s: Source, inbox: string, more: string, eof: bool)
    requires SourceMove(cfg, s, inbox, false).Move?
    ensures SourceMove(cfg, s, inbox + more, eof) == SourceMove(cfg, s, inbox, false)
  {
    if inbox != "" {
      assert (inbox + more)[0] == inbox[0];
    }
  }
}
