/** What the special characters of a file name pattern mean (gssftp/ftp/glob.c), said of the text of a pattern. */
module GlobTexts {
  import opened Glob

  /** Text that stands for itself, inside braces too. */
  predicate Plain(t: string) {
    forall i :: 0 <= i < |t| ==> '\0' < t[i] < 128 as char && t[i] !in "{[*?/,}"
  }

  function Lits(t: string): (p: Pattern)
    ensures |p| == |t|
  {
    if t == "" then [] else [Lit(t[0])] + Lits(t[1..])
  }

  lemma {:induction false} LitsShow(t: string, inBraces: bool)
    requires Plain(t)
    ensures Show(Lits(t)) == t && Good(Lits(t), inBraces)
    decreases t
  {
    if t != "" {
      LitsShow(t[1..], inBraces);
      assert t == [t[0]] + t[1..] && Lits(t)[1..] == Lits(t[1..]);
    }
  }

  lemma {:induction false} LitsAccept(t: string, rest: Pattern, s: string)
    ensures Accepts(Lits(t) + rest, s) <==> t <= s && Accepts(rest, s[|t|..])
    decreases t
  {
    hide Accepts;
    if t == "" {
      assert Lits(t) + rest == rest && s[0..] == s;
    } else {
      var p := Lits(t) + rest;
      assert p[0] == Lit(t[0]) && p[1..] == Lits(t[1..]) + rest;
      AcceptsLit(p, s);
      if s != "" {
        LitsAccept(t[1..], rest, s[1..]);
        if t[0] == s[0] && t[1..] <= s[1..] {
          assert t == [t[0]] + t[1..] && s == [s[0]] + s[1..];
        }
        if t <= s {
          assert t[1..] <= s[1..] && s[1..][|t| - 1..] == s[|t|..];
        }
      }
    }
  }

  lemma AcceptsLit(p: Pattern, s: string)
    requires p != [] && p[0].Lit?
    ensures Accepts(p, s) <==> s != "" && s[0] == p[0].c && Accepts(p[1..], s[1..])
  {
  }

  lemma LitsAlone(u: string, s: string)
    ensures Accepts(Lits(u), s) <==> s == u
  {
    LitsAccept(u, [], s);
    assert Lits(u) + [] == Lits(u);
    if u <= s {
      assert s == u + s[|u|..];
    }
  }

  lemma GoodConcat(a: Pattern, b: Pattern, inBraces: bool)
    ensures Good(a + b, inBraces) <==> Good(a, inBraces) && Good(b, inBraces)
    decreases a
  {
    if a == [] {
      assert a + b == b;
    } else {
      assert (a + b)[0] == a[0] && (a + b)[1..] == a[1..] + b;
      GoodConcat(a[1..], b, inBraces);
    }
  }

  /** Text, one special item, and text: what it looks like, and what is left for the item to say. */
  lemma Around(t: string, it: Item, u: string) returns (p: Pattern)
    requires Plain(t) && Plain(u) && GoodItem(it, false)
    ensures p == Lits(t) + ([it] + Lits(u)) && Good(p, false) && Show(p) == t + ShowItem(it) + u
  {
    p := Lits(t) + ([it] + Lits(u));
    LitsShow(t, false);
    LitsShow(u, false);
    var tail := [it] + Lits(u);
    assert tail[1..] == Lits(u);
    ShowConcat(Lits(t), tail);
    GoodConcat(Lits(t), tail, false);
  }

  // ---------- the four of them ----------

  /** A star stands for any text at all. */
  lemma StarText(t: string, u: string, s: string) returns (p: Pattern)
    requires Plain(t) && Plain(u)
    ensures Good(p, false) && Show(p) == t + "*" + u
    ensures Accepts(p, s) <==> |t| + |u| <= |s| && s[..|t|] == t && s[|s| - |u|..] == u
  {
    hide Accepts, Lits;
    p := Around(t, Many, u);
    LitsAccept(t, [Many] + Lits(u), s);
    if t <= s {
      StarThen(u, s[|t|..]);
      if |t| + |u| <= |s| {
        assert s[|s| - |u|..] == s[|t|..][|s| - |t| - |u|..];
      }
    }
  }

  lemma StarThen(u: string, r: string)
    ensures Accepts([Many] + Lits(u), r) <==> |u| <= |r| && r[|r| - |u|..] == u
  {
    hide Lits;
    var tail := [Many] + Lits(u);
    assert tail[0] == Many && tail[1..] == Lits(u);
    forall k | 0 <= k <= |r|
      ensures Accepts(Lits(u), r[k..]) <==> r[k..] == u
    {
      LitsAlone(u, r[k..]);
    }
    assert |u| <= |r| ==> Accepts(Lits(u), r[|r| - |u|..]) == (r[|r| - |u|..] == u);
  }

  /** A question mark stands for one character. */
  lemma QuestionText(t: string, u: string, s: string) returns (p: Pattern)
    requires Plain(t) && Plain(u)
    ensures Good(p, false) && Show(p) == t + "?" + u
    ensures Accepts(p, s) <==> |s| == |t| + 1 + |u| && s[..|t|] == t && s[|t| + 1..] == u
  {
    p := Around(t, One, u);
    OneCharacter(t, One, u, s, c => true);
  }

  /** Brackets stand for one of the characters in them, or between the two ends of a range in them. */
  lemma ClassText(t: string, x: char, lo: char, hi: char, u: string, s: string) returns (p: Pattern)
    requires Plain(t) && Plain(u) && GoodMembers([Single(x), Range(lo, hi)])
    ensures Good(p, false) && Show(p) == t + ("[" + [x, lo, '-', hi] + "]") + u
    ensures Accepts(p, s) <==>
      |s| == |t| + 1 + |u| && s[..|t|] == t && (s[|t|] == x || lo <= s[|t|] <= hi) && s[|t| + 1..] == u
  {
    var ms := [Single(x), Range(lo, hi)];
    p := Around(t, Class(ms), u);
    TwoMembers(x, lo, hi);
    forall c: char
      ensures (c == x || lo <= c <= hi) <==> InClass(c, ms)
    {
      assert InMember(c, ms[0]) <==> c == x;
      assert InMember(c, ms[1]) <==> lo <= c <= hi;
    }
    OneCharacter(t, Class(ms), u, s, c => c == x || lo <= c <= hi);
  }

  lemma TwoMembers(x: char, lo: char, hi: char)
    ensures ShowMembers([Single(x), Range(lo, hi)]) == [x, lo, '-', hi]
  {
    var ms := [Single(x), Range(lo, hi)];
    var none: seq<Member> := [];
    assert ms[1..] == [Range(lo, hi)] && ms[1..][1..] == none;
    assert ShowMembers(none) == "";
    assert ShowMembers([Range(lo, hi)]) == [lo, '-', hi] + ShowMembers(none);
    assert ShowMembers(ms) == [x] + ShowMembers(ms[1..]);
  }

  /** The item stands for the characters that `ok` holds of. */
  ghost predicate StandsFor(it: Item, ok: char -> bool) {
    (it.One? || it.Class?) && forall c :: ok(c) <==> it.One? || InClass(c, it.members)
  }

  lemma OneCharacter(t: string, it: Item, u: string, s: string, ok: char -> bool)
    requires StandsFor(it, ok)
    ensures Accepts(Lits(t) + ([it] + Lits(u)), s) <==>
      |s| == |t| + 1 + |u| && s[..|t|] == t && ok(s[|t|]) && s[|t| + 1..] == u
  {
    hide Accepts, StandsFor, Lits;
    LitsAccept(t, [it] + Lits(u), s);
    if t <= s {
      var r := s[|t|..];
      OneThen(it, Lits(u), r, ok);
      if r != "" {
        LitsAlone(u, r[1..]);
        BehindOne(t, s);
      }
    }
  }

  lemma BehindOne(t: string, s: string)
    requires |t| < |s|
    ensures s[|t|..][0] == s[|t|] && s[|t|..][1..] == s[|t| + 1..]
  {
  }

  lemma OneThen(it: Item, rest: Pattern, r: string, ok: char -> bool)
    requires StandsFor(it, ok)
    ensures Accepts([it] + rest, r) <==> r != "" && ok(r[0]) && Accepts(rest, r[1..])
  {
    hide InClass;
    var tail := [it] + rest;
    assert tail[0] == it && tail[1..] == rest;
  }

  /** Braces stand for either of the alternatives in them. */
  lemma BracesText(t: string, a: string, b: string, u: string, s: string) returns (p: Pattern)
    requires Plain(t) && Plain(a) && Plain(b) && Plain(u)
    ensures Good(p, false) && Show(p) == t + ("{" + (a + "," + b) + "}") + u
    ensures Accepts(p, s) <==> s == t + a + u || s == t + b + u
  {
    var alts := [Alternative(Lits(a)), Alternative(Lits(b))];
    TwoAlternatives(a, b);
    p := Around(t, Braces(alts), u);
    var tail := [Braces(alts)] + Lits(u);
    assert tail[0] == Braces(alts) && tail[1..] == Lits(u);
    LitsAccept(t, tail, s);
    if t <= s {
      var r := s[|t|..];
      EitherAccepts(alts, Lits(u), r);
      TwoTexts(a, u, r);
      TwoTexts(b, u, r);
      assert s == t + r;
    }
    Regroup(t, a, u);
    Regroup(t, b, u);
  }

  lemma TwoAlternatives(a: string, b: string)
    requires Plain(a) && Plain(b)
    ensures var alts := [Alternative(Lits(a)), Alternative(Lits(b))];
      GoodAlts(alts) && ShowAlts(alts) == a + "," + b
  {
    hide Lits;
    var alts := [Alternative(Lits(a)), Alternative(Lits(b))];
    LitsShow(a, true);
    LitsShow(b, true);
    var none: seq<Alternative> := [];
    assert alts[1..] == [Alternative(Lits(b))] && alts[1..][1..] == none;
    assert GoodAlts(none) && GoodAlt(alts[0]) && GoodAlt(alts[1]);
    assert GoodAlts(alts[1..]);
    assert ShowAlts(alts[1..]) == ShowAlt(alts[1]);
  }

  lemma Regroup(t: string, a: string, u: string)
    ensures t + a + u == t + (a + u) && (t + (a + u))[|t|..] == a + u
  {
  }

  lemma EitherAccepts(alts: seq<Alternative>, rest: Pattern, s: string)
    requires |alts| == 2
    ensures Accepts([Braces(alts)] + rest, s) <==> Accepts(alts[0].items + rest, s) || Accepts(alts[1].items + rest, s)
  {
    var p := [Braces(alts)] + rest;
    assert p[0] == Braces(alts) && p[1..] == rest;
  }

  lemma TwoTexts(a: string, u: string, s: string)
    ensures Accepts(Lits(a) + Lits(u), s) <==> s == a + u
  {
    LitsAccept(a, Lits(u), s);
    if a <= s {
      LitsAlone(u, s[|a|..]);
      assert s == a + s[|a|..];
    }
  }
}
