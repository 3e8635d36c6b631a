/** The choice of the utmp record that a session updates (libpty/update_utmp.c). */
module Utmp {
  import opened Wrappers

  datatype Kind = EmptyEntry | LoginProcess | UserProcess | DeadProcess | OtherKind

  /** The text fields are what strncmp sees of them. */
  datatype Entry = Entry(id: string, line: string, pid: int, kind: Kind)

  const ZEROED := Entry("", "", 0, EmptyEntry)

  predicate Live(u: Entry) { u.kind == LoginProcess || u.kind == UserProcess }

  /** `better` */
  predicate Better(search: Entry, a: Entry, b: Entry) {
    if search.id != b.id && search.id == a.id then true
    else if a.id != b.id then
      if search.id == b.id then false
      else if a.kind == LoginProcess && b.kind != LoginProcess then true
      else search.kind == DeadProcess && a.kind == UserProcess && b.kind != UserProcess
    else false
  }

  /** `match_pid` */
  predicate MatchPid(search: Entry, u: Entry) {
    Live(u) && u.pid == search.pid && (u.line == search.line || u.id == search.id)
  }

  /** What successive calls of `getutxline` find. */
  function OnLine(search: Entry, file: seq<Entry>): seq<Entry> {
    if file == [] then []
    else (if Live(file[0]) && file[0].line == search.line then [file[0]] else []) + OnLine(search, file[1..])
  }

  function FirstByPid(search: Entry, file: seq<Entry>): (i: Option<nat>)
    ensures i == None <==> forall k :: 0 <= k < |file| ==> !MatchPid(search, file[k])
    ensures i.Some? ==> i.value < |file| && MatchPid(search, file[i.value])
    ensures i.Some? ==> forall k :: 0 <= k < i.value ==> !MatchPid(search, file[k])
    decreases file
  {
    if file == [] then None else if MatchPid(search, file[0]) then Some(0) else
    match FirstByPid(search, file[1..])
    case None => None
    case Some(k) => assert file[k + 1] == file[1..][k]; Some(k + 1)
  }

  /** The preference fold: where the best entry so far stands, after `line[..n]`. */
  function Best(search: Entry, line: seq<Entry>, n: nat): (b: Option<nat>)
    requires n <= |line|
    ensures b.Some? ==> b.value < n
    decreases n
  {
    if n == 0 then None else
    var b := Best(search, line, n - 1);
    if Better(search, line[n - 1], if b.Some? then line[b.value] else ZEROED) then Some(n - 1) else b
  }

  function Chosen(search: Entry, file: seq<Entry>): Option<Entry> {
    var line := OnLine(search, file);
    if search.pid != 0 && FirstByPid(search, file).Some? then Some(file[FirstByPid(search, file).value])
    else match Best(search, line, |line|)
      case None => None
      case Some(b) => Some(line[b])
  }

  /** `u` is the first entry of the file that `p` holds of, if there is one. */
  ghost predicate IsFirst(file: seq<Entry>, p: Entry -> bool, u: Option<Entry>) {
    match u
    case None => forall i :: 0 <= i < |file| ==> !p(file[i])
    case Some(e) => exists i :: 0 <= i < |file| && file[i] == e && p(e) && forall k :: 0 <= k < i ==> !p(file[k])
  }

  lemma FoundIsFirst(file: seq<Entry>, p: Entry -> bool, i: Option<nat>)
    requires i == None ==> forall k :: 0 <= k < |file| ==> !p(file[k])
    requires i.Some? ==> i.value < |file| && p(file[i.value]) && forall k :: 0 <= k < i.value ==> !p(file[k])
    ensures IsFirst(file, p, match i case None => None case Some(k) => Some(file[k]))
  {
  }

  // ---------- the search itself ----------

  /** The utmp file with the library's cursor. */
  class Database {
    const file: seq<Entry>
    var cursor: nat

    ghost predicate Valid()
      reads this
    {
      cursor <= |file|
    }

    constructor (file: seq<Entry>)
      ensures Valid() && this.file == file && cursor == 0
    {
      this.file, cursor := file, 0;
    }

    method SetEnt()
      modifies this
      ensures Valid() && cursor == 0
    {
      cursor := 0;
    }

    method GetEnt() returns (u: Option<Entry>)
      requires Valid()
      modifies this
      ensures Valid()
      ensures old(cursor) < |file| ==> u == Some(file[old(cursor)]) && cursor == old(cursor) + 1
      ensures old(cursor) == |file| ==> u == None && cursor == old(cursor)
    {
      if cursor == |file| {
        return None;
      }
      u := Some(file[cursor]);
      cursor := cursor + 1;
    }

    method GetLine(search: Entry) returns (u: Option<Entry>)
      requires Valid()
      modifies this
      ensures Valid() && old(cursor) <= cursor
      ensures var line := OnLine(search, file[old(cursor)..]);
        if line == [] then u == None && cursor == |file|
        else u == Some(line[0]) && OnLine(search, file[cursor..]) == line[1..] && old(cursor) < cursor
    {
      while cursor < |file|
        invariant Valid() && old(cursor) <= cursor
        invariant OnLine(search, file[cursor..]) == OnLine(search, file[old(cursor)..])
      {
        var x := file[cursor];
        assert file[cursor..][1..] == file[cursor + 1..];
        cursor := cursor + 1;
        if Live(x) && x.line == search.line {
          return Some(x);
        }
      }
      u := None;
    }

    /** The first pass of `best_utxent`, by pid. */
    method ByPid(search: Entry) returns (u: Option<Entry>)
      modifies this
      ensures Valid()
      ensures u == match FirstByPid(search, file) case None => None case Some(i) => Some(file[i])
      ensures IsFirst(file, (e: Entry) => (e.kind == LoginProcess || e.kind == UserProcess) && e.pid == search.pid
                                          && (e.line == search.line || e.id == search.id), u)
    {
      hide IsFirst;
      FoundIsFirst(file, (e: Entry) => (e.kind == LoginProcess || e.kind == UserProcess) && e.pid == search.pid
                                       && (e.line == search.line || e.id == search.id), FirstByPid(search, file));
      SetEnt();
      u := GetEnt();
      while u.Some?
        invariant Valid() && (u.Some? ==> 0 < cursor && u.value == file[cursor - 1])
        invariant forall k :: 0 <= k < (if u.Some? then cursor - 1 else |file|) ==> !MatchPid(search, file[k])
        decreases |file| - cursor, u.Some?
      {
        if MatchPid(search, u.value) {
          assert FirstByPid(search, file) == Some(cursor - 1);
          return;
        }
        u := GetEnt();
      }
    }

    /** The pass over the entries on the line; -1 if none is any better than an empty one. */
    method BestOnLine(search: Entry) returns (best: int)
      modifies this
      ensures Valid()
      ensures var line := OnLine(search, file);
        match Best(search, line, |line|) case None => best == -1 case Some(b) => best == b
    {
      hide Better, OnLine;
      var utxtmp := ZEROED;
      ghost var line := OnLine(search, file);
      var i := 0;
      best := -1;
      SetEnt();
      assert file[0..] == file;
      var utxp := GetLine(search);
      while utxp.Some?
        invariant Valid() && 0 <= i <= |line| && (utxp == None ==> i == |line|)
        invariant utxp.Some? ==> i < |line| && utxp.value == line[i] && OnLine(search, file[cursor..]) == line[i + 1..]
        invariant match Best(search, line, i)
          case None => best == -1 && utxtmp == ZEROED
          case Some(b) => best == b && utxtmp == line[b]
        decreases |line| - i
      {
        if Better(search, utxp.value, utxtmp) {
          utxtmp, best := utxp.value, i;
        }
        i := i + 1;
        utxp := GetLine(search);
      }
    }

    /** The last pass: up to the position found before. */
    method Reread(search: Entry, best: nat) returns (utxp: Option<Entry>)
      requires best < |OnLine(search, file)|
      modifies this
      ensures Valid() && utxp == Some(OnLine(search, file)[best])
    {
      hide OnLine;
      ghost var line := OnLine(search, file);
      utxp := None;
      SetEnt();
      assert file[0..] == file;
      var i := 0;
      while i <= best
        invariant Valid() && 0 <= i <= best + 1
        invariant OnLine(search, file[cursor..]) == line[i..]
        invariant i > 0 ==> utxp == Some(line[i - 1])
      {
        utxp := GetLine(search);
        i := i + 1;
      }
    }

    /** `best_utxent` */
    method BestEntry(search: Entry) returns (u: Option<Entry>)
      modifies this
      ensures Valid() && u == Chosen(search, file)
    {
      if search.pid != 0 {
        u := ByPid(search);
        if u.Some? {
          return;
        }
      }
      var best := BestOnLine(search);
      if best == -1 {
        return None;
      }
      u := Reread(search, best);
    }
  }

  // ---------- what is chosen ----------

  function FirstById(line: seq<Entry>, id: string): (i: Option<nat>)
    ensures i == None <==> forall k :: 0 <= k < |line| ==> line[k].id != id
    ensures i.Some? ==> i.value < |line| && line[i.value].id == id
    ensures i.Some? ==> forall k :: 0 <= k < i.value ==> line[k].id != id
    decreases line
  {
    if line == [] then None else if line[0].id == id then Some(0) else
    match FirstById(line[1..], id)
    case None => None
    case Some(k) => assert line[k + 1] == line[1..][k]; Some(k + 1)
  }

  predicate NamedLogin(u: Entry) { u.kind == LoginProcess && u.id != "" }

  function FirstLogin(line: seq<Entry>): (i: Option<nat>)
    ensures i == None <==> forall k :: 0 <= k < |line| ==> !NamedLogin(line[k])
    ensures i.Some? ==> i.value < |line| && NamedLogin(line[i.value])
    ensures i.Some? ==> forall k :: 0 <= k < i.value ==> !NamedLogin(line[k])
    decreases line
  {
    if line == [] then None else if NamedLogin(line[0]) then Some(0) else
    match FirstLogin(line[1..])
    case None => None
    case Some(k) => assert line[k + 1] == line[1..][k]; Some(k + 1)
  }

  /** What the preference comes to for a search that is not for a dead process: the first entry with the
      same id, or else the first login entry with an id; nothing if the search has no id. */
  function Preferred(search: Entry, line: seq<Entry>): Option<nat> {
    if search.id == "" then None
    else if FirstById(line, search.id).Some? then FirstById(line, search.id)
    else FirstLogin(line)
  }

  lemma {:induction false} SameIdWins(search: Entry, line: seq<Entry>, n: nat, k: nat)
    requires search.id != "" && k < n <= |line| && FirstById(line, search.id) == Some(k)
    ensures Best(search, line, n) == Some(k)
    decreases n
  {
    if n == k + 1 {
      var b := Best(search, line, k);
      assert (if b.Some? then line[b.value] else ZEROED).id != search.id;
    } else {
      SameIdWins(search, line, n - 1, k);
    }
  }

  lemma {:induction false} NothingWithoutId(search: Entry, line: seq<Entry>, n: nat)
    requires search.id == "" && n <= |line|
    ensures Best(search, line, n) == None
    decreases n
  {
    if n > 0 {
      NothingWithoutId(search, line, n - 1);
    }
  }

  lemma {:induction false} LoginWins(search: Entry, line: seq<Entry>, n: nat)
    requires search.kind != DeadProcess && search.id != "" && n <= |line| && FirstById(line, search.id) == None
    ensures Best(search, line, n) ==
      if FirstLogin(line).Some? && FirstLogin(line).value < n then FirstLogin(line) else None
    decreases n
  {
    if n > 0 {
      LoginWins(search, line, n - 1);
      var u := line[n - 1];
      assert u.id != search.id;
      if FirstLogin(line).Some? && FirstLogin(line).value < n - 1 {
        assert NamedLogin(line[FirstLogin(line).value]);
      }
    }
  }

  lemma UserSearchOnLine(search: Entry, file: seq<Entry>)
    requires search.kind != DeadProcess
    ensures var line := OnLine(search, file);
      Chosen(search, file) ==
      if search.pid != 0 && FirstByPid(search, file).Some? then Some(file[FirstByPid(search, file).value])
      else match Preferred(search, line) case None => None case Some(k) => Some(line[k])
  {
    var line := OnLine(search, file);
    if search.id == "" {
      NothingWithoutId(search, line, |line|);
    } else if FirstById(line, search.id).Some? {
      SameIdWins(search, line, |line|, FirstById(line, search.id).value);
    } else {
      LoginWins(search, line, |line|);
    }
  }

  // ---------- the same, said of the file ----------

  lemma IsFirstOnce(file: seq<Entry>, p: Entry -> bool, u: Option<Entry>, v: Option<Entry>)
    requires IsFirst(file, p, u) && IsFirst(file, p, v)
    ensures u == v
  {
  }

  lemma IsFirstOfRest(file: seq<Entry>, p: Entry -> bool, u: Option<Entry>)
    requires file != [] && !p(file[0]) && IsFirst(file[1..], p, u)
    ensures IsFirst(file, p, u)
  {
    match u
    case None =>
      forall i | 0 <= i < |file|
        ensures !p(file[i])
      {
        assert i > 0 ==> file[i] == file[1..][i - 1];
      }
    case Some(e) =>
      var i :| 0 <= i < |file[1..]| && file[1..][i] == e && p(e) && forall k :: 0 <= k < i ==> !p(file[1..][k]);
      forall k | 0 <= k < i + 1
        ensures !p(file[k])
      {
        assert k > 0 ==> file[k] == file[1..][k - 1];
      }
      assert file[i + 1] == e;
  }

  /** The first entry on the line with some property is the first of the file that has it and is live on the line. */
  lemma {:induction false} FirstOnLine(search: Entry, file: seq<Entry>, p: Entry -> bool, q: Entry -> bool,
                                       u: Option<Entry>)
    requires forall e :: q(e) <==> Live(e) && e.line == search.line && p(e)
    requires IsFirst(OnLine(search, file), p, u)
    ensures IsFirst(file, q, u)
    decreases file
  {
    if file != [] {
      var line := OnLine(search, file);
      if q(file[0]) {
        assert line[0] == file[0];
        assert IsFirst(line, p, Some(line[0]));
        IsFirstOnce(line, p, u, Some(line[0]));
        assert file[0] == u.value;
      } else {
        if Live(file[0]) && file[0].line == search.line {
          assert line[1..] == OnLine(search, file[1..]);
          LaterOnLine(line, p, u);
        } else {
          assert line == OnLine(search, file[1..]);
        }
        FirstOnLine(search, file[1..], p, q, u);
        IsFirstOfRest(file, q, u);
      }
    }
  }

  lemma LaterOnLine(line: seq<Entry>, p: Entry -> bool, u: Option<Entry>)
    requires line != [] && !p(line[0]) && IsFirst(line, p, u)
    ensures IsFirst(line[1..], p, u)
  {
    match u
    case None =>
    case Some(e) =>
      var i :| 0 <= i < |line| && line[i] == e && p(e) && forall k :: 0 <= k < i ==> !p(line[k]);
      assert line[1..][i - 1] == e;
  }

  /** A search that knows its pid takes the first login or user entry that has this pid and is on its line or has its
      id, whatever kind of search it is; if there is none, it goes on as if it did not know its pid. */
  lemma PidIsTaken(search: Entry, file: seq<Entry>, u: Option<Entry>)
    requires search.pid != 0
    requires IsFirst(file, (e: Entry) => (e.kind == LoginProcess || e.kind == UserProcess) && e.pid == search.pid
                                         && (e.line == search.line || e.id == search.id), u)
    ensures Chosen(search, file) == if u.Some? then u else Chosen(search.(pid := 0), file)
  {
    PidIsFound(search, file, u);
    OnLineWithoutPid(search, file);
    BestWithoutPid(search, OnLine(search, file), |OnLine(search, file)|);
  }

  lemma {:induction false} OnLineWithoutPid(search: Entry, file: seq<Entry>)
    ensures OnLine(search.(pid := 0), file) == OnLine(search, file)
    decreases file
  {
    if file != [] {
      OnLineWithoutPid(search, file[1..]);
    }
  }

  lemma {:induction false} BestWithoutPid(search: Entry, line: seq<Entry>, n: nat)
    requires n <= |line|
    ensures Best(search.(pid := 0), line, n) == Best(search, line, n)
    decreases n
  {
    if n > 0 {
      BestWithoutPid(search, line, n - 1);
    }
  }

  lemma PidIsFound(search: Entry, file: seq<Entry>, u: Option<Entry>)
    requires search.pid != 0
    requires IsFirst(file, (e: Entry) => (e.kind == LoginProcess || e.kind == UserProcess) && e.pid == search.pid
                                         && (e.line == search.line || e.id == search.id), u)
    ensures u.Some? ==> Chosen(search, file) == u
    ensures u.Some? <==> FirstByPid(search, file).Some?
  {
    var p := (e: Entry) => (e.kind == LoginProcess || e.kind == UserProcess) && e.pid == search.pid
                           && (e.line == search.line || e.id == search.id);
    var i := FirstByPid(search, file);
    FoundIsFirst(file, p, i);
    IsFirstOnce(file, p, u, match i case None => None case Some(k) => Some(file[k]));
  }

  /** A search for a user process, by the entries of the file alone: the first one of its pid, as above; otherwise
      the first one with its id among the login and user entries on its line; otherwise the first login entry there
      that has an id; nothing if the search has no id itself. */
  lemma UserSearchChooses(search: Entry, file: seq<Entry>, byPid: Option<Entry>, byId: Option<Entry>,
                          login: Option<Entry>)
    requires search.kind != DeadProcess
    requires IsFirst(file, (e: Entry) => (e.kind == LoginProcess || e.kind == UserProcess) && e.pid == search.pid
                                         && (e.line == search.line || e.id == search.id), byPid)
    requires IsFirst(file, (e: Entry) => (e.kind == LoginProcess || e.kind == UserProcess) && e.line == search.line
                                         && e.id == search.id, byId)
    requires IsFirst(file, (e: Entry) => e.kind == LoginProcess && e.line == search.line && e.id != "", login)
    ensures Chosen(search, file) ==
      if search.pid != 0 && byPid.Some? then byPid
      else if search.id == "" then None
      else if byId.Some? then byId
      else login
  {
    UserSearchOnLine(search, file);
    if search.pid != 0 {
      PidIsFound(search, file, byPid);
    }
    ByIdOnLine(search, file, byId);
    LoginOnLine(search, file, login);
  }

  lemma ByIdOnLine(search: Entry, file: seq<Entry>, byId: Option<Entry>)
    requires IsFirst(file, (e: Entry) => (e.kind == LoginProcess || e.kind == UserProcess) && e.line == search.line
                                         && e.id == search.id, byId)
    ensures var line := OnLine(search, file);
      byId == match FirstById(line, search.id) case None => None case Some(k) => Some(line[k])
  {
    var line := OnLine(search, file);
    var i, same := FirstById(line, search.id), (e: Entry) => e.id == search.id;
    FoundIsFirst(line, same, i);
    var u := match i case None => None case Some(k) => Some(line[k]);
    var byIds := (e: Entry) => (e.kind == LoginProcess || e.kind == UserProcess) && e.line == search.line
                               && e.id == search.id;
    FirstOnLine(search, file, same, byIds, u);
    IsFirstOnce(file, byIds, byId, u);
  }

  lemma LoginOnLine(search: Entry, file: seq<Entry>, login: Option<Entry>)
    requires IsFirst(file, (e: Entry) => e.kind == LoginProcess && e.line == search.line && e.id != "", login)
    ensures var line := OnLine(search, file);
      login == match FirstLogin(line) case None => None case Some(k) => Some(line[k])
  {
    var line := OnLine(search, file);
    var i, named := FirstLogin(line), (e: Entry) => NamedLogin(e);
    FoundIsFirst(line, named, i);
    var u := match i case None => None case Some(k) => Some(line[k]);
    var logins := (e: Entry) => e.kind == LoginProcess && e.line == search.line && e.id != "";
    FirstOnLine(search, file, named, logins, u);
    IsFirstOnce(file, logins, login, u);
  }

  // ---------- searches for a dead process ----------

  /** The first entry from `j` on that has neither the id nor the kind of entry `i`. */
  function NextBetter(line: seq<Entry>, i: nat, j: nat): (k: Option<nat>)
    requires i < |line|
    ensures k == None <==>
      forall m :: j <= m < |line| ==> line[m].id == line[i].id || line[m].kind == line[i].kind
    ensures k.Some? ==> j <= k.value < |line| && line[k.value].id != line[i].id && line[k.value].kind != line[i].kind
    ensures k.Some? ==>
      forall m :: j <= m < k.value ==> line[m].id == line[i].id || line[m].kind == line[i].kind
    decreases |line| - j
  {
    if j >= |line| then None
    else if line[j].id != line[i].id && line[j].kind != line[i].kind then Some(j)
    else NextBetter(line, i, j + 1)
  }

  /** Where one gets from entry `i` by going on to the next better one as long as there is one. */
  function EndOfChain(line: seq<Entry>, i: nat): (k: nat)
    requires i < |line|
    ensures i <= k < |line|
    ensures forall m :: k < m < |line| ==> line[m].id == line[k].id || line[m].kind == line[k].kind
    decreases |line| - i
  {
    match NextBetter(line, i, i + 1)
    case None => i
    case Some(j) => EndOfChain(line, j)
  }

  function FirstNamed(line: seq<Entry>): (i: Option<nat>)
    ensures i == None <==> forall k :: 0 <= k < |line| ==> line[k].id == ""
    ensures i.Some? ==> i.value < |line| && line[i.value].id != ""
    ensures i.Some? ==> forall k :: 0 <= k < i.value ==> line[k].id == ""
    decreases line
  {
    if line == [] then None else if line[0].id != "" then Some(0) else
    match FirstNamed(line[1..])
    case None => None
    case Some(k) => assert line[k + 1] == line[1..][k]; Some(k + 1)
  }

  /** Where the fold stands after `n` entries: on the chain from the first one with an id, with nothing better
      passed over. */
  predicate OnChain(line: seq<Entry>, b: Option<nat>, n: nat)
    requires n <= |line|
  {
    var f := FirstNamed(line);
    if f == None || n <= f.value then b == None
    else
      && b.Some? && f.value <= b.value < n && EndOfChain(line, b.value) == EndOfChain(line, f.value)
      && forall m :: b.value < m < n ==> line[m].id == line[b.value].id || line[m].kind == line[b.value].kind
  }

  lemma ChainGoesOn(line: seq<Entry>, b: Option<nat>, n: nat)
    requires n < |line| && OnChain(line, b, n) && Live(line[n])
    ensures b == None ==> OnChain(line, if line[n].id != "" then Some(n) else None, n + 1)
    ensures b.Some? ==>
              var better := line[n].id != line[b.value].id && line[n].kind != line[b.value].kind;
              b.value < n && OnChain(line, if better then Some(n) else b, n + 1)
  {
    hide EndOfChain;
    if b.Some? && line[n].id != line[b.value].id && line[n].kind != line[b.value].kind {
      ChainStep(line, b.value, n);
    }
  }

  lemma {:induction false} FoldFollowsChain(search: Entry, line: seq<Entry>, n: nat)
    requires search.kind == DeadProcess && search.id != "" && FirstById(line, search.id) == None
    requires (forall i :: 0 <= i < |line| ==> Live(line[i])) && n <= |line|
    ensures OnChain(line, Best(search, line, n), n)
    decreases n
  {
    hide Better, OnChain;
    if n == 0 {
      NothingOnChain(line);
    } else {
      FoldFollowsChain(search, line, n - 1);
      var b := Best(search, line, n - 1);
      BetterForDead(search, line[n - 1], if b.Some? then line[b.value] else ZEROED);
      ChainGoesOn(line, b, n - 1);
    }
  }

  lemma NothingOnChain(line: seq<Entry>)
    ensures OnChain(line, None, 0)
  {
  }

  lemma BetterForDead(search: Entry, a: Entry, b: Entry)
    requires search.kind == DeadProcess && a.id != search.id && b.id != search.id && Live(a) && (Live(b) || b == ZEROED)
    ensures Better(search, a, b) <==> a.id != b.id && a.kind != b.kind
  {
  }

  lemma ChainStep(line: seq<Entry>, i: nat, j: nat)
    requires i < j < |line| && line[j].id != line[i].id && line[j].kind != line[i].kind
    requires forall m :: i < m < j ==> line[m].id == line[i].id || line[m].kind == line[i].kind
    ensures EndOfChain(line, i) == EndOfChain(line, j)
  {
    assert NextBetter(line, i, i + 1) == Some(j);
  }

  lemma {:induction false} OnLineIsLive(search: Entry, file: seq<Entry>)
    ensures forall i :: 0 <= i < |OnLine(search, file)| ==>
      Live(OnLine(search, file)[i]) && OnLine(search, file)[i].line == search.line
    decreases file
  {
    if file != [] {
      OnLineIsLive(search, file[1..]);
    }
  }

  /** When no pid matches, a dead-process search takes the first entry on the line with its id; if there is none it
      begins with the first entry there that has an id, and goes on from each entry to the next one of another id
      and another kind: every change of kind looks better. */
  lemma DeadSearchChooses(search: Entry, file: seq<Entry>)
    requires search.kind == DeadProcess
    requires search.pid == 0 || forall i :: 0 <= i < |file| ==>
               !((file[i].kind == LoginProcess || file[i].kind == UserProcess) && file[i].pid == search.pid
                 && (file[i].line == search.line || file[i].id == search.id))
    ensures var line := OnLine(search, file);
      Chosen(search, file) ==
      if search.id == "" then None
      else if FirstById(line, search.id).Some? then Some(line[FirstById(line, search.id).value])
      else if FirstNamed(line) == None then None
      else Some(line[EndOfChain(line, FirstNamed(line).value)])
  {
    var line := OnLine(search, file);
    OnLineIsLive(search, file);
    if search.id == "" {
      NothingWithoutId(search, line, |line|);
    } else if FirstById(line, search.id).Some? {
      SameIdWins(search, line, |line|, FirstById(line, search.id).value);
    } else {
      FoldFollowsChain(search, line, |line|);
      var b := Best(search, line, |line|);
      if b.Some? {
        assert NextBetter(line, b.value, b.value + 1) == None;
      }
    }
  }

  predicate DistinctIds(line: seq<Entry>) {
    && (forall i :: 0 <= i < |line| ==> line[i].id != "")
    && (forall i, j :: 0 <= i < j < |line| ==> line[i].id != line[j].id)
  }

  /** The last change between login and user entries before `n`. */
  function LastRun(line: seq<Entry>, n: nat): (k: nat)
    requires 0 < n <= |line|
    ensures k < n && (forall i :: k <= i < n ==> line[i].kind == line[n - 1].kind)
    ensures k > 0 ==> line[k - 1].kind != line[k].kind
  {
    if n == 1 then 0
    else if line[n - 2].kind != line[n - 1].kind then n - 1
    else LastRun(line, n - 1)
  }

  lemma {:induction false} LastRunWins(search: Entry, line: seq<Entry>, n: nat)
    requires search.kind == DeadProcess && search.id != "" && FirstById(line, search.id) == None
    requires DistinctIds(line) && (forall i :: 0 <= i < |line| ==> Live(line[i])) && 0 < n <= |line|
    ensures Best(search, line, n) == Some(LastRun(line, n))
    decreases n
  {
    assert line[n - 1].id != search.id && Live(line[n - 1]);
    if n > 1 {
      LastRunWins(search, line, n - 1);
      assert Live(line[n - 2]);
    } else {
      assert Best(search, line, 0) == None;
    }
  }

  /** With distinct ids that is the first entry of the last run of its kind. */
  lemma LastRunIsTaken(search: Entry, file: seq<Entry>)
    requires search.kind == DeadProcess && search.id != "" && OnLine(search, file) != []
    requires search.pid == 0 || FirstByPid(search, file) == None
    requires DistinctIds(OnLine(search, file)) && FirstById(OnLine(search, file), search.id) == None
    ensures var line := OnLine(search, file); Chosen(search, file) == Some(line[LastRun(line, |line|)])
  {
    OnLineIsLive(search, file);
    LastRunWins(search, OnLine(search, file), |OnLine(search, file)|);
  }
}
