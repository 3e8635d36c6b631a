/** The client's keyboard side (bsd/krlogin.c): `read_wrapper` hands out what was typed up to an escape
    character at the beginning of a line, and `writer` acts on what follows it.  Both are compared with one
    machine that looks at the keys one by one. */
module RloginEscapes {
  import opened Bytes

  const TBUF: nat := 1024

  /** The settings that `writer` consults; `lineEnd` are the keys after which a line begins. */
  datatype Settings = Settings(cmdchar: char, eof: char, suspend: set<char>, lineEnd: set<char>, noLocalEscape: bool)

  datatype Event = Send(c: char) | Stop(c: char) | Die

  /** Whether a line begins, whether the escape character has been seen there, or whether it is all over. */
  datatype State = Normal(bol: bool) | Escaped | Over

  function AfterKey(k: Settings, c: char): State { Normal(c in k.lineEnd) }

  function Key(k: Settings, st: State, c: char): (State, seq<Event>) {
    match st
    case Normal(bol) => if bol && c == k.cmdchar then (Escaped, []) else (AfterKey(k, c), [Send(c)])
    case Escaped =>
      if c == '.' || c == k.eof then (Over, [Die])
      else if c in k.suspend && !k.noLocalEscape then (AfterKey(k, c), [Stop(c)])
      else if c != k.cmdchar then (AfterKey(k, c), [Send(k.cmdchar), Send(c)])
      else (AfterKey(k, c), [Send(c)])
    case Over => (Over, [])
  }

  function Keys(k: Settings, st: State, s: string): (State, seq<Event>)
    decreases s
  {
    if s == "" then (st, []) else
    var (st', es) := Key(k, st, s[0]);
    var (st'', es') := Keys(k, st', s[1..]);
    (st'', es + es')
  }

  function Sends(s: string): seq<Event> {
    seq(|s|, i requires 0 <= i < |s| => Send(s[i]))
  }

  lemma {:induction false} KeysConcat(k: Settings, st: State, a: string, b: string)
    ensures var (st', es) := Keys(k, st, a);
            var (st'', es') := Keys(k, st', b);
            Keys(k, st, a + b) == (st'', es + es')
    decreases a
  {
    hide Key;
    if a == "" {
      assert a + b == b && [] + Keys(k, st, b).1 == Keys(k, st, b).1;
    } else {
      var (s1, e1) := Key(k, st, a[0]);
      var (s2, e2) := Keys(k, s1, a[1..]);
      KeysConcat(k, s1, a[1..], b);
      assert (a + b)[0] == a[0] && (a + b)[1..] == a[1..] + b;
      assert e1 + (e2 + Keys(k, s2, b).1) == (e1 + e2) + Keys(k, s2, b).1;
    }
  }

  lemma KeysOne(k: Settings, st: State, c: char)
    ensures Keys(k, st, [c]) == Key(k, st, c)
  {
    assert [c][1..] == "" && Key(k, st, c).1 + [] == Key(k, st, c).1;
  }

  lemma {:induction false} NothingWhenOver(k: Settings, s: string)
    ensures Keys(k, Over, s) == (Over, [])
    decreases s
  {
    if s != "" {
      NothingWhenOver(k, s[1..]);
      assert Keys(k, Over, s).1 == [] + [];
    }
  }

  // ---------- the functions ----------

  class Writer {
    const settings: Settings
    /** What the coming calls of read() deliver, until the end of input. */
    var typed: seq<string>
    const tbuf: array<char>
    var dataStart: nat
    var dataEnd: nat
    var bol: bool

    ghost predicate Valid()
      reads this
    {
      && tbuf.Length == TBUF && dataStart <= dataEnd <= TBUF
      && forall i :: 0 <= i < |typed| ==> 0 < |typed[i]| <= TBUF
    }

    ghost function Pending(): string
      requires Valid()
      reads this, tbuf
    {
      tbuf[dataStart..dataEnd] + Flat(typed)
    }

    constructor (settings: Settings, typed: seq<string>)
      requires forall i :: 0 <= i < |typed| ==> 0 < |typed[i]| <= TBUF
      ensures Valid() && Pending() == Flat(typed) && bol && this.settings == settings && fresh(tbuf)
    {
      this.settings, this.typed := settings, typed;
      tbuf := new char[TBUF](i => '\0');
      dataStart, dataEnd, bol := 0, 0, true;
    }

    /** The part of `read_wrapper` that fetches more when nothing is left over. */
    method Fill()
      requires Valid() && dataStart == dataEnd && typed != []
      modifies this`typed, this`dataStart, this`dataEnd, tbuf
      ensures Valid() && dataStart < dataEnd && Pending() == old(Pending())
    {
      var chunk := typed[0];
      typed := typed[1..];
      forall i | 0 <= i < |chunk| {
        tbuf[i] := chunk[i];
      }
      dataStart, dataEnd := 0, |chunk|;
      assert tbuf[0..|chunk|] == chunk;
    }

    /** `read_wrapper` with a buffer of `size`; 0 at the end of input. */
    method ReadWrapper(size: nat) returns (buf: string, gotEsc: bool)
      requires Valid() && size > 0
      modifies this`typed, this`dataStart, this`dataEnd, this`bol, tbuf
      ensures Valid() && |buf| <= size
      ensures old(Pending()) == buf + Pending()
      ensures buf == "" <==> old(Pending()) == ""
      ensures gotEsc ==> buf != "" && !bol && old(bol || size > 1)
      ensures Keys(settings, Normal(old(bol)), buf)
           == if gotEsc then (Escaped, Sends(buf[..|buf| - 1])) else (Normal(bol), Sends(buf))
    {
      hide Keys, Key;
      if dataStart == dataEnd {
        if typed == [] {
          KeysNone(settings, Normal(bol));
          return "", false;
        }
        Fill();
      }
      ghost var data := tbuf[dataStart..dataEnd];
      buf, gotEsc := Scan(size);
      assert data + Flat(typed) == buf + (data[|buf|..] + Flat(typed));
    }

    /** The rest of `read_wrapper`: up to the end of what is buffered, `size` keys, or an escape character. */
    method Scan(size: nat) returns (buf: string, gotEsc: bool)
      requires Valid() && size > 0 && dataStart < dataEnd
      modifies this`dataStart, this`bol
      ensures Valid() && 0 < |buf| <= size
      ensures var data := old(tbuf[dataStart..dataEnd]);
              |buf| <= |data| && buf == data[..|buf|] && tbuf[dataStart..dataEnd] == data[|buf|..]
      ensures gotEsc ==> !bol && old(bol || size > 1)
      ensures Keys(settings, Normal(old(bol)), buf)
           == if gotEsc then (Escaped, Sends(buf[..|buf| - 1])) else (Normal(bol), Sends(buf))
    {
      hide Keys, Key;
      buf, gotEsc := "", false;
      KeysNone(settings, Normal(bol));
      var n := 0;
      ghost var data := tbuf[dataStart..dataEnd];
      while dataStart + n < dataEnd && n < size && !gotEsc
        invariant dataStart == old(dataStart) && Valid() && tbuf[dataStart..dataEnd] == data
        invariant 0 <= n <= |data| && n <= size && |buf| == n && buf == data[..n]
        invariant gotEsc ==> n > 0 && !bol && (old(bol) || n > 1)
        invariant Keys(settings, Normal(old(bol)), buf)
               == if gotEsc then (Escaped, Sends(buf[..|buf| - 1])) else (Normal(bol), Sends(buf))
        invariant n == 0 ==> bol == old(bol) && !gotEsc
      {
        var c := tbuf[dataStart + n];
        assert c == data[n] && data[..n + 1] == data[..n] + [c];
        KeyAfter(settings, Normal(old(bol)), buf, bol, c);
        n := n + 1;
        buf := buf + [c];
        if bol && c == settings.cmdchar {
          bol, gotEsc := false, true;
          assert buf[..|buf| - 1] == data[..n - 1];
        } else {
          bol := c in settings.lineEnd;
        }
      }
      dataStart := dataStart + n;
      assert tbuf[dataStart..dataEnd] == data[n..];
    }

    /** What `writer` does with the key behind an escape character. */
    method AfterEscape(c: char) returns (events: seq<Event>, over: bool)
      ensures events == Key(settings, Escaped, c).1 && over == Key(settings, Escaped, c).0.Over?
    {
      if c == '.' || c == settings.eof {
        return [Die], true;
      }
      if c in settings.suspend && !settings.noLocalEscape {
        return [Stop(c)], false;
      }
      events, over := [], false;
      if c != settings.cmdchar {
        events := events + [Send(settings.cmdchar)];
      }
      events := events + [Send(c)];
    }

    /** One round of the loop of `writer`; `more` is false when it breaks out. */
    method Round() returns (events: seq<Event>, more: bool)
      requires Valid()
      modifies this`typed, this`dataStart, this`dataEnd, this`bol, tbuf
      ensures Valid() && (more ==> |Pending()| < |old(Pending())|)
      ensures Keys(settings, Normal(old(bol)), old(Pending())).1
           == events + if more then Keys(settings, Normal(bol), Pending()).1 else []
    {
      hide Keys, Key;
      var buf, gotEsc := ReadWrapper(TBUF);
      KeysConcat(settings, Normal(old(bol)), buf, Pending());
      if buf == "" {
        KeysNone(settings, Normal(old(bol)));
        return [], false;
      }
      if !gotEsc {
        return Sends(buf), true;
      }
      events := Sends(buf[..|buf| - 1]);
      ghost var after := Pending();
      var one, gotEsc2 := ReadWrapper(1);
      if one == "" {
        KeysNone(settings, Escaped);
        return events, false;
      }
      var c := one[0];
      var did, over := AfterEscape(c);
      EscapeStep(settings, c, bol, Pending(), one);
      events := events + did;
      more := !over;
      assert Sends(buf[..|buf| - 1]) + (did + if more then Keys(settings, Normal(bol), Pending()).1 else [])
          == events + if more then Keys(settings, Normal(bol), Pending()).1 else [];
    }

    /** `writer`: the events are what goes to the server, and the calls of stop() and of confirm_death(). */
    method Write() returns (events: seq<Event>)
      requires Valid()
      modifies this`typed, this`dataStart, this`dataEnd, this`bol, tbuf
      ensures events == Keys(settings, Normal(old(bol)), old(Pending())).1
    {
      hide Keys;
      events := [];
      var more := true;
      ghost var rest := Keys(settings, Normal(bol), Pending()).1;
      ghost var all := rest;
      while more
        invariant Valid() && events + rest == all
        invariant rest == if more then Keys(settings, Normal(bol), Pending()).1 else []
        decreases more, |Pending()|
      {
        var es;
        ghost var before := events;
        es, more := Round();
        rest := if more then Keys(settings, Normal(bol), Pending()).1 else [];
        events := events + es;
        assert before + (es + rest) == events + rest;
      }
    }
  }

  /** The key behind an escape character, read through `read_wrapper` in the middle of a line. */
  lemma EscapeStep(k: Settings, c: char, bol: bool, pending: string, one: string)
    requires one == [c] && Keys(k, Normal(false), one) == (Normal(bol), Sends(one))
    ensures var (st, did) := Key(k, Escaped, c);
            Keys(k, Escaped, one + pending).1 == did + if st.Over? then [] else Keys(k, Normal(bol), pending).1
  {
    KeysConcat(k, Escaped, one, pending);
    KeysOne(k, Escaped, c);
    KeysOne(k, Normal(false), c);
    NothingWhenOver(k, pending);
  }

  lemma KeysNone(k: Settings, st: State)
    ensures Keys(k, st, "") == (st, []) && Sends("") == []
  {
  }

  /** One more key in the scan of `read_wrapper`. */
  lemma KeyAfter(k: Settings, st: State, buf: string, bol: bool, c: char)
    ensures Keys(k, st, buf) == (Normal(bol), Sends(buf)) ==>
              Keys(k, st, buf + [c])
              == if bol && c == k.cmdchar then (Escaped, Sends(buf)) else (AfterKey(k, c), Sends(buf + [c]))
  {
    KeysConcat(k, st, buf, [c]);
    if Keys(k, st, buf) == (Normal(bol), Sends(buf)) {
      KeysOne(k, Normal(bol), c);
      assert Sends(buf) + [Send(c)] == Sends(buf + [c]);
      assert Sends(buf) + [] == Sends(buf);
    }
  }

  // ---------- what this means ----------

  /** The events depend on the keys alone and not on how they were cut into reads. */
  method CutDoesNotMatter(k: Settings, a: seq<string>, b: seq<string>) returns (ea: seq<Event>, eb: seq<Event>)
    requires Flat(a) == Flat(b)
    requires forall i :: 0 <= i < |a| ==> 0 < |a[i]| <= TBUF
    requires forall i :: 0 <= i < |b| ==> 0 < |b[i]| <= TBUF
    ensures ea == eb == Keys(k, Normal(true), Flat(a)).1
  {
    var wa := new Writer(k, a);
    ea := wa.Write();
    var wb := new Writer(k, b);
    eb := wb.Write();
  }

  /** Keys without an escape character at the beginning of a line are sent as they are. */
  lemma {:induction false} PlainKeysAreSent(k: Settings, bol: bool, s: string)
    requires s != "" && bol ==> s[0] != k.cmdchar
    requires forall i :: 0 < i < |s| ==> s[i - 1] in k.lineEnd ==> s[i] != k.cmdchar
    ensures Keys(k, Normal(bol), s).1 == Sends(s)
    decreases s
  {
    if s != "" {
      PlainKeysAreSent(k, s[0] in k.lineEnd, s[1..]);
      assert [Send(s[0])] + Sends(s[1..]) == Sends(s);
    }
  }

  lemma EscapeBegins(k: Settings, c: char, rest: string)
    ensures Keys(k, Normal(true), [k.cmdchar, c] + rest) == Keys(k, Escaped, [c] + rest)
  {
    var s := [k.cmdchar, c] + rest;
    assert s[1..] == [c] + rest;
    assert [] + Keys(k, Escaped, [c] + rest).1 == Keys(k, Escaped, [c] + rest).1;
  }

  /** What the key behind a line-start escape character does: a period or the end-of-file key ends the session,
      and nothing typed later is sent; a suspend key stops the program unless that is switched off; the escape
      character itself is sent once; any other key is sent behind the escape character.  The line goes on. */
  lemma KeyAfterEscape(k: Settings, c: char, rest: string)
    ensures var es := Keys(k, Normal(true), [k.cmdchar, c] + rest).1;
            var later := Keys(k, Normal(c in k.lineEnd), rest).1;
            && (c == '.' || c == k.eof ==> es == [Die])
            && (c != '.' && c != k.eof && c in k.suspend && !k.noLocalEscape ==> es == [Stop(c)] + later)
            && (c != '.' && c != k.eof && !(c in k.suspend && !k.noLocalEscape) ==>
                  es == (if c == k.cmdchar then [Send(c)] else [Send(k.cmdchar), Send(c)]) + later)
  {
    EscapeBegins(k, c, rest);
    NothingWhenOver(k, rest);
    assert ([c] + rest)[0] == c && ([c] + rest)[1..] == rest;
    assert [Die] + [] == [Die];
  }

  /** The text with every escape character at the beginning of a line typed twice. */
  function Doubled(k: Settings, bol: bool, text: string): string
    decreases text
  {
    if text == "" then ""
    else (if bol && text[0] == k.cmdchar then [text[0], text[0]] else [text[0]])
         + Doubled(k, text[0] in k.lineEnd, text[1..])
  }

  /** Doubling is transparent: typed so, any text at all reaches the server as it is, provided that the escape
      character is not itself one of the keys that act behind it. */
  lemma {:induction false} DoublingIsTransparent(k: Settings, bol: bool, text: string)
    requires k.cmdchar != '.' && k.cmdchar != k.eof && !(k.cmdchar in k.suspend && !k.noLocalEscape)
    ensures Keys(k, Normal(bol), Doubled(k, bol, text)).1 == Sends(text)
    decreases text
  {
    if text != "" {
      var c, more := text[0], Doubled(k, text[0] in k.lineEnd, text[1..]);
      DoublingIsTransparent(k, c in k.lineEnd, text[1..]);
      assert [Send(c)] + Sends(text[1..]) == Sends(text);
      if bol && c == k.cmdchar {
        KeyAfterEscape(k, c, more);
      } else {
        assert ([c] + more)[0] == c && ([c] + more)[1..] == more;
      }
    }
  }

  /** And only then: otherwise a doubled escape character is not sent at all. */
  lemma DoublingFails(k: Settings)
    requires k.cmdchar == '.' || k.cmdchar == k.eof || (k.cmdchar in k.suspend && !k.noLocalEscape)
    ensures var es := Keys(k, Normal(true), [k.cmdchar, k.cmdchar]).1;
            es == [Die] || es == [Stop(k.cmdchar)]
  {
    KeyAfterEscape(k, k.cmdchar, "");
    KeysNone(k, Normal(k.cmdchar in k.lineEnd));
    assert [k.cmdchar, k.cmdchar] + "" == [k.cmdchar, k.cmdchar];
    assert [Stop(k.cmdchar)] + [] == [Stop(k.cmdchar)];
  }
}
