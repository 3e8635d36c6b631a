/** File name patterns with braces (gssftp/ftp/glob.c): the matcher `amatch`, the brace walker `execbrc`
    and `match`, on the text of a pattern without slashes. */
module Glob {
  import opened Wrappers

  // ---------- patterns and their text ----------

  datatype Member = Single(c: char) | Range(lo: char, hi: char)

  datatype Item =
    | Lit(c: char)
    | One
    | Many
    | Class(members: seq<Member>)
    | Braces(alts: seq<Alternative>)

  datatype Alternative = Alternative(items: seq<Item>)

  type Pattern = seq<Item>

  function ShowMembers(ms: seq<Member>): string {
    if ms == [] then ""
    else (match ms[0] case Single(c) => [c] case Range(lo, hi) => [lo, '-', hi]) + ShowMembers(ms[1..])
  }

  function Show(p: Pattern): string
    decreases p
  {
    if p == [] then "" else ShowItem(p[0]) + Show(p[1..])
  }

  function ShowItem(it: Item): string
    decreases it
  {
    match it
    case Lit(c) => [c]
    case One => "?"
    case Many => "*"
    case Class(ms) => "[" + ShowMembers(ms) + "]"
    case Braces(alts) => "{" + ShowAlts(alts) + "}"
  }

  /** The alternatives with commas between them. */
  function ShowAlts(alts: seq<Alternative>): string
    decreases alts
  {
    if alts == [] then "" else if |alts| == 1 then ShowAlt(alts[0]) else ShowAlt(alts[0]) + "," + ShowAlts(alts[1..])
  }

  function ShowAlt(a: Alternative): string
    decreases a
  {
    Show(a.items)
  }

  // ---------- which patterns ----------

  predicate Ascii(c: char) { '\0' < c < 128 as char }

  predicate MemberChar(c: char) { Ascii(c) && c != ']' && c != '-' && c != '/' }

  predicate GoodMember(m: Member) {
    match m
    case Single(c) => MemberChar(c)
    case Range(lo, hi) => MemberChar(lo) && MemberChar(hi) && lo <= hi
  }

  predicate GoodMembers(ms: seq<Member>) {
    forall i :: 0 <= i < |ms| ==> GoodMember(ms[i])
  }

  predicate LitChar(c: char, inBraces: bool) {
    Ascii(c) && c !in "{[*?/" && (inBraces ==> c != ',' && c != '}')
  }

  predicate Good(p: Pattern, inBraces: bool)
    decreases p
  {
    p == [] || (GoodItem(p[0], inBraces) && Good(p[1..], inBraces))
  }

  predicate GoodItem(it: Item, inBraces: bool)
    decreases it
  {
    match it
    case Lit(c) => LitChar(c, inBraces)
    case One => true
    case Many => true
    case Class(ms) => GoodMembers(ms)
    case Braces(alts) => alts != [] && GoodAlts(alts)
  }

  predicate GoodAlts(alts: seq<Alternative>)
    decreases alts
  {
    alts == [] || (GoodAlt(alts[0]) && GoodAlts(alts[1..]))
  }

  predicate GoodAlt(a: Alternative)
    decreases a
  {
    Good(a.items, true)
  }

  predicate GoodName(s: string) { forall i :: 0 <= i < |s| ==> Ascii(s[i]) }

  // ---------- the meaning the matcher works with ----------

  predicate InMember(c: char, m: Member) {
    match m
    case Single(x) => c == x
    case Range(lo, hi) => lo <= c <= hi
  }

  predicate InClass(c: char, ms: seq<Member>) {
    exists i :: 0 <= i < |ms| && InMember(c, ms[i])
  }

  lemma {:induction false} ShowConcat(a: Pattern, b: Pattern)
    ensures Show(a + b) == Show(a) + Show(b)
    decreases a
  {
    if a == [] {
      assert a + b == b;
    } else {
      assert (a + b)[0] == a[0] && (a + b)[1..] == a[1..] + b;
      ShowConcat(a[1..], b);
    }
  }

  lemma {:induction false} ShowAltsLength(alts: seq<Alternative>, i: nat)
    requires i < |alts|
    ensures |ShowAlt(alts[i])| <= |ShowAlts(alts)|
    decreases alts
  {
    if i > 0 {
      ShowAltsLength(alts[1..], i - 1);
    }
  }

  /** Putting an alternative in the place of its group makes the text shorter. */
  lemma Chosen(p: Pattern, i: nat)
    requires p != [] && p[0].Braces? && i < |p[0].alts|
    ensures |Show(p[0].alts[i].items + p[1..])| < |Show(p)|
  {
    ShowAltsLength(p[0].alts, i);
    ShowConcat(p[0].alts[i].items, p[1..]);
  }

  /** Whether `s` is matched: a brace group stands for any of its alternatives, put in its place. */
  ghost predicate Accepts(p: Pattern, s: string)
    decreases |Show(p)|, |p|
  {
    if p == [] then s == "" else
    match p[0]
    case Lit(c) => s != "" && s[0] == c && Accepts(p[1..], s[1..])
    case One => s != "" && Accepts(p[1..], s[1..])
    case Many => exists k :: 0 <= k <= |s| && Accepts(p[1..], s[k..])
    case Class(ms) => s != "" && InClass(s[0], ms) && Accepts(p[1..], s[1..])
    case Braces(alts) =>
      exists i :: 0 <= i < |alts| && (Chosen(p, i); Accepts(alts[i].items + p[1..], s))
  }

  // ---------- the class scan ----------

  function At(s: string, i: nat): char {
    if i < |s| then s[i] else '\0'
  }

  /** `amatch` between `[` and `]`: the position behind the class if `scc` is in it, and None if not.
      `lc` is the octal 077777 at first and then the last member seen. */
  function ClassScan(scc: char, p: string, i: nat, lc: int, ok: bool): Option<nat>
    decreases |p| - i
  {
    if i >= |p| then if ok then Some(i) else None
    else if p[i] == ']' then if ok then Some(i + 1) else None
    else if p[i] == '-' then
      if lc <= scc as int then
        if i + 1 >= |p| then None else ClassScan(scc, p, i + 2, lc, ok || scc <= p[i + 1])
      else ClassScan(scc, p, i + 1, lc, ok)
    else ClassScan(scc, p, i + 1, p[i] as int, ok || scc == p[i])
  }

  lemma {:induction false} ClassScanIs(scc: char, pre: string, ms: seq<Member>, post: string, lc: int, ok: bool)
    requires GoodMembers(ms)
    ensures ClassScan(scc, pre + ShowMembers(ms) + "]" + post, |pre|, lc, ok)
         == if ok || InClass(scc, ms) then Some(|pre| + |ShowMembers(ms)| + 1) else None
    decreases ms
  {
    hide ClassScan, InClass;
    var p := pre + ShowMembers(ms) + "]" + post;
    if ms == [] {
      EndOfClass(scc, p, |pre|, lc, ok);
    } else {
      var m, rest := ms[0], ms[1..];
      var shown := match m case Single(c) => [c] case Range(lo, hi) => [lo, '-', hi];
      var pre' := pre + shown;
      assert p == pre' + ShowMembers(rest) + "]" + post;
      assert GoodMember(ms[0]);
      InClassSplits(scc, ms);
      match m
      case Single(c) =>
        PassSingle(scc, p, |pre|, lc, ok);
        ClassScanIs(scc, pre', rest, post, c as int, ok || scc == c);
      case Range(lo, hi) =>
        assert p[|pre|] == lo && p[|pre| + 1] == '-' && p[|pre| + 2] == hi;
        PassRange(scc, p, |pre|, lc, ok);
        ClassScanIs(scc, pre', rest, post, (if lo <= scc then lo else hi) as int, ok || InMember(scc, m));
    }
  }

  lemma EndOfClass(scc: char, p: string, i: nat, lc: int, ok: bool)
    requires i < |p| && p[i] == ']'
    ensures ClassScan(scc, p, i, lc, ok) == if ok then Some(i + 1) else None
    ensures !InClass(scc, [])
  {
  }

  lemma PassSingle(scc: char, p: string, i: nat, lc: int, ok: bool)
    requires i < |p| && MemberChar(p[i])
    ensures ClassScan(scc, p, i, lc, ok) == ClassScan(scc, p, i + 1, p[i] as int, ok || scc == p[i])
  {
  }

  lemma PassRange(scc: char, p: string, i: nat, lc: int, ok: bool)
    requires i + 2 < |p| && MemberChar(p[i]) && p[i + 1] == '-' && MemberChar(p[i + 2]) && p[i] <= p[i + 2]
    ensures ClassScan(scc, p, i, lc, ok)
         == ClassScan(scc, p, i + 3, (if p[i] <= scc then p[i] else p[i + 2]) as int, ok || p[i] <= scc <= p[i + 2])
  {
    PassSingle(scc, p, i, lc, ok);
    if scc < p[i] {
      assert ClassScan(scc, p, i + 1, p[i] as int, ok) == ClassScan(scc, p, i + 2, p[i] as int, ok);
      PassSingle(scc, p, i + 2, p[i] as int, ok);
    }
  }

  /** A range means what lies between its ends exactly when it ascends: of a descending one, whose second end is
      read as a member by itself, the two ends are matched. */
  lemma RangeIsExact(a: char, b: char)
    requires MemberChar(a) && MemberChar(b)
    ensures (forall c :: ClassScan(c, [a, '-', b, ']'], 0, 0x7FFF, false).Some? <==> a <= c <= b) <==> a <= b
    ensures a > b ==> forall c :: ClassScan(c, [a, '-', b, ']'], 0, 0x7FFF, false).Some? <==> c == a || c == b
  {
    var p := [a, '-', b, ']'];
    forall c
      ensures ClassScan(c, p, 0, 0x7FFF, false).Some? <==> (if a <= c then c == a || c <= b else c == b)
    {
      assert ClassScan(c, p, 0, 0x7FFF, false) == ClassScan(c, p, 1, a as int, c == a);
      if a <= c {
        assert ClassScan(c, p, 1, a as int, c == a) == ClassScan(c, p, 3, a as int, c == a || c <= b);
      } else {
        assert ClassScan(c, p, 1, a as int, false) == ClassScan(c, p, 2, a as int, false);
        assert ClassScan(c, p, 2, a as int, false) == ClassScan(c, p, 3, b as int, c == b);
      }
    }
    if a > b {
      assert ClassScan(a, p, 0, 0x7FFF, false).Some?;
    }
  }

  lemma InClassSplits(c: char, ms: seq<Member>)
    requires ms != []
    ensures InClass(c, ms) <==> InMember(c, ms[0]) || InClass(c, ms[1..])
  {
    if InClass(c, ms) {
      var i :| 0 <= i < |ms| && InMember(c, ms[i]);
      if i > 0 {
        assert ms[1..][i - 1] == ms[i];
      }
    }
    if InClass(c, ms[1..]) {
      var i :| 0 <= i < |ms[1..]| && InMember(c, ms[1..][i]);
      assert ms[i + 1] == ms[1..][i];
    }
  }

  method MatchClass(scc: char, p: string, start: nat) returns (found: bool, next: nat)
    ensures ClassScan(scc, p, start, 0x7FFF, false) == if found then Some(next) else None
  {
    var ok, lc := false, 0x7FFF;
    next := start;
    while next < |p|
      invariant ClassScan(scc, p, start, 0x7FFF, false) == ClassScan(scc, p, next, lc, ok)
      decreases |p| - next
    {
      var cc := p[next];
      next := next + 1;
      if cc == ']' {
        return ok, next;
      }
      if cc == '-' {
        if lc <= scc as int {
          if next == |p| {
            return false, next;
          }
          if scc <= p[next] {
            ok := true;
          }
          next := next + 1;
        }
      } else {
        lc := cc as int;
        if scc == cc {
          ok := true;
        }
      }
    }
    found := ok;
  }

  // ---------- the brace scans ----------

  /** The end of a class when its text has been entered at `i`. */
  function SkipClass(p: string, i: nat): (k: nat)
    ensures i < |p| ==> i < k <= |p|
    ensures i >= |p| ==> k == i
    decreases |p| - i
  {
    if i >= |p| then i else if p[i] == ']' then i + 1 else SkipClass(p, i + 1)
  }

  /** The first loop of `execbrc`: the position of the brace that closes the group. */
  function CloseOf(p: string, i: nat, lev: nat): (r: nat)
    ensures r >= i
    decreases |p| - i
  {
    if i >= |p| then i
    else if p[i] == '{' then CloseOf(p, i + 1, lev + 1)
    else if p[i] == '}' then if lev == 0 then i else CloseOf(p, i + 1, lev - 1)
    else if p[i] == '[' then CloseOf(p, SkipClass(p, i + 1), lev)
    else CloseOf(p, i + 1, lev)
  }

  /** The second loop: the position of the next comma or brace that ends an alternative. */
  function CutOf(p: string, i: nat, lev: nat): (r: nat)
    ensures r >= i
    decreases |p| - i
  {
    if i >= |p| then i
    else if p[i] == '{' then CutOf(p, i + 1, lev + 1)
    else if p[i] == '}' then if lev == 0 then i else CutOf(p, i + 1, lev - 1)
    else if p[i] == ',' && lev == 0 then i
    else if p[i] == '[' then CutOf(p, SkipClass(p, i + 1), lev)
    else CutOf(p, i + 1, lev)
  }

  lemma {:induction false} SkipMembers(pre: string, ms: seq<Member>, post: string)
    requires GoodMembers(ms)
    ensures SkipClass(pre + ShowMembers(ms) + "]" + post, |pre|) == |pre| + |ShowMembers(ms)| + 1
    decreases ms
  {
    var p := pre + ShowMembers(ms) + "]" + post;
    if ms == [] {
      assert p[|pre|] == ']';
    } else {
      var m, rest := ms[0], ms[1..];
      var shown := match m case Single(c) => [c] case Range(lo, hi) => [lo, '-', hi];
      assert p == (pre + shown) + ShowMembers(rest) + "]" + post;
      assert GoodMember(ms[0]);
      SkipMembers(pre + shown, rest, post);
      match m
      case Single(c) => assert p[|pre|] == c;
      case Range(lo, hi) =>
        assert p[|pre|] == lo && p[|pre| + 1] == '-' && p[|pre| + 2] == hi;
        assert SkipClass(p, |pre| + 1) == SkipClass(p, |pre| + 2);
    }
  }

  /** Both scans pass over the text of a pattern that stands inside braces. */
  lemma {:induction false} ScansPass(pre: string, p: Pattern, post: string, lev: nat)
    requires Good(p, true)
    ensures var t := pre + Show(p) + post;
            && CloseOf(t, |pre|, lev) == CloseOf(t, |pre| + |Show(p)|, lev)
            && CutOf(t, |pre|, lev) == CutOf(t, |pre| + |Show(p)|, lev)
    decreases p
  {
    hide CloseOf, CutOf, ShowItem, GoodItem;
    if p != [] {
      var it, rest := p[0], p[1..];
      var t := pre + Show(p) + post;
      assert t == pre + ShowItem(it) + (Show(rest) + post);
      ScansPassItem(pre, it, Show(rest) + post, lev);
      assert t == (pre + ShowItem(it)) + Show(rest) + post;
      ScansPass(pre + ShowItem(it), rest, post, lev);
    }
  }

  lemma {:induction false} ScansPassItem(pre: string, it: Item, post: string, lev: nat)
    requires GoodItem(it, true)
    ensures var t := pre + ShowItem(it) + post;
            && CloseOf(t, |pre|, lev) == CloseOf(t, |pre| + |ShowItem(it)|, lev)
            && CutOf(t, |pre|, lev) == CutOf(t, |pre| + |ShowItem(it)|, lev)
    decreases it
  {
    var t := pre + ShowItem(it) + post;
    match it
    case Lit(c) => assert t[|pre|] == c;
    case One => assert t[|pre|] == '?';
    case Many => assert t[|pre|] == '*';
    case Class(ms) =>
      assert t[|pre|] == '[';
      assert t == (pre + "[") + ShowMembers(ms) + "]" + post;
      SkipMembers(pre + "[", ms, post);
    case Braces(alts) => ScansPassGroup(pre, alts, post, lev);
  }

  lemma {:induction false} ScansPassGroup(pre: string, alts: seq<Alternative>, post: string, lev: nat)
    requires GoodAlts(alts)
    ensures var t := pre + ("{" + ShowAlts(alts) + "}") + post;
            && CloseOf(t, |pre|, lev) == CloseOf(t, |pre| + |ShowAlts(alts)| + 2, lev)
            && CutOf(t, |pre|, lev) == CutOf(t, |pre| + |ShowAlts(alts)| + 2, lev)
    decreases alts, 1
  {
    hide CloseOf, CutOf, ShowAlts, GoodAlts;
    var t := pre + ("{" + ShowAlts(alts) + "}") + post;
    assert t[|pre|] == '{';
    ScansEnter(t, |pre|, lev);
    assert t == (pre + "{") + ShowAlts(alts) + ("}" + post);
    ScansPassAlts(pre + "{", alts, "}" + post, lev);
    assert t[|pre| + 1 + |ShowAlts(alts)|] == '}';
    ScansLeave(t, |pre| + 1 + |ShowAlts(alts)|, lev);
  }

  lemma ShowAltsSplit(alts: seq<Alternative>)
    ensures alts == [] ==> ShowAlts(alts) == ""
    ensures |alts| == 1 ==> ShowAlts(alts) == ShowAlt(alts[0])
    ensures |alts| > 1 ==> ShowAlts(alts) == ShowAlt(alts[0]) + "," + ShowAlts(alts[1..])
  {
  }

  lemma AroundComma(pre: string, a: string, more: string, post: string)
    ensures var t := pre + (a + "," + more) + post;
            && t == pre + a + ("," + more + post) == (pre + a + ",") + more + post
            && t[|pre| + |a|] == ','
  {
    assert pre + (a + "," + more) + post == pre + a + ("," + more + post) == (pre + a + ",") + more + post;
  }

  lemma ScansEnter(t: string, i: nat, lev: nat)
    requires i < |t| && t[i] == '{'
    ensures CloseOf(t, i, lev) == CloseOf(t, i + 1, lev + 1) && CutOf(t, i, lev) == CutOf(t, i + 1, lev + 1)
  {
  }

  lemma ScansLeave(t: string, i: nat, lev: nat)
    requires i < |t| && t[i] == '}'
    ensures CloseOf(t, i, lev + 1) == CloseOf(t, i + 1, lev) && CutOf(t, i, lev + 1) == CutOf(t, i + 1, lev)
  {
  }

  lemma ScansPassComma(t: string, i: nat, lev: nat)
    requires i < |t| && t[i] == ','
    ensures CloseOf(t, i, lev) == CloseOf(t, i + 1, lev) && CutOf(t, i, lev + 1) == CutOf(t, i + 1, lev + 1)
  {
  }

  lemma {:induction false} ScansPassAlt(pre: string, a: Alternative, post: string, lev: nat)
    requires GoodAlt(a)
    ensures var t := pre + ShowAlt(a) + post;
            && CloseOf(t, |pre|, lev) == CloseOf(t, |pre| + |ShowAlt(a)|, lev)
            && CutOf(t, |pre|, lev) == CutOf(t, |pre| + |ShowAlt(a)|, lev)
    decreases a
  {
    ScansPass(pre, a.items, post, lev);
  }

  lemma {:induction false} ScansPassAlts(pre: string, alts: seq<Alternative>, post: string, lev: nat)
    requires GoodAlts(alts)
    ensures var t := pre + ShowAlts(alts) + post;
            && CloseOf(t, |pre|, lev) == CloseOf(t, |pre| + |ShowAlts(alts)|, lev)
            && CutOf(t, |pre|, lev + 1) == CutOf(t, |pre| + |ShowAlts(alts)|, lev + 1)
            && CloseOf(t, |pre|, lev + 1) == CloseOf(t, |pre| + |ShowAlts(alts)|, lev + 1)
    decreases alts, 0
  {
    hide CloseOf, CutOf, ShowAlts, ShowAlt, GoodAlt;
    ShowAltsSplit(alts);
    if |alts| == 1 {
      ScansPassAlt(pre, alts[0], post, lev);
      ScansPassAlt(pre, alts[0], post, lev + 1);
    } else if alts != [] {
      var a, more := ShowAlt(alts[0]), ShowAlts(alts[1..]);
      var t := pre + ShowAlts(alts) + post;
      AroundComma(pre, a, more, post);
      ScansPassAlt(pre, alts[0], "," + more + post, lev);
      ScansPassAlt(pre, alts[0], "," + more + post, lev + 1);
      ScansPassComma(t, |pre| + |a|, lev);
      ScansPassComma(t, |pre| + |a|, lev + 1);
      ScansPassAlts(pre + a + ",", alts[1..], post, lev);
    }
  }

  // ---------- facts about the text of good patterns ----------

  lemma {:induction false} GoodOutside(p: Pattern)
    requires Good(p, true)
    ensures Good(p, false)
    decreases p
  {
    if p != [] {
      GoodOutside(p[1..]);
    }
  }

  lemma {:induction false} GoodConcat(a: Pattern, b: Pattern)
    requires Good(a, false) && Good(b, false)
    ensures Good(a + b, false)
    decreases a
  {
    if a == [] {
      assert a + b == b;
    } else {
      assert (a + b)[0] == a[0] && (a + b)[1..] == a[1..] + b;
      GoodConcat(a[1..], b);
    }
  }

  /** The first character of a pattern's text tells what comes first in the pattern. */
  lemma HeadOf(p: Pattern)
    requires Good(p, false) && p != []
    ensures var t := Show(p);
            && t != ""
            && t[0] == (match p[0] case Lit(c) => c case One => '?' case Many => '*'
                        case Class(_) => '[' case Braces(_) => '{')
            && (p[0].Lit? ==> t[0] !in "{[*?" && t[0] != '\0')
            && (p[0].Lit? || p[0].One? || p[0].Many? ==> t[1..] == Show(p[1..]))
  {
    assert Show(p) == ShowItem(p[0]) + Show(p[1..]);
  }

  lemma ManyManys(r: Pattern, s: string)
    ensures Accepts([Many] + ([Many] + r), s) <==> Accepts([Many] + r, s)
  {
    var one, two := [Many] + r, [Many] + ([Many] + r);
    assert one[1..] == r && two[1..] == one;
    if Accepts(two, s) {
      var k :| 0 <= k <= |s| && Accepts(one, s[k..]);
      var m :| 0 <= m <= |s[k..]| && Accepts(r, s[k..][m..]);
      assert s[k..][m..] == s[k + m..];
    }
    if Accepts(one, s) {
      assert s[0..] == s;
    }
  }

  lemma ManyAlone(s: string)
    ensures Accepts([Many], s)
  {
    assert [Many][1..] == [] && s[|s|..] == "";
  }

  /** Where the next alternative ends. */
  lemma CutAt(p: string, pl: nat, alts: seq<Alternative>, post: string)
    requires pl <= |p| && alts != [] && GoodAlts(alts) && p[pl..] == ShowAlts(alts) + "}" + post
    ensures var cut := pl + |ShowAlt(alts[0])|;
            && cut < |p| && CutOf(p, pl, 0) == cut && p[pl..cut] == ShowAlt(alts[0])
            && p[cut] == (if |alts| == 1 then '}' else ',')
            && (|alts| == 1 ==> p[cut + 1..] == post)
            && (|alts| > 1 ==> p[cut + 1..] == ShowAlts(alts[1..]) + "}" + post)
  {
    hide CloseOf, CutOf, ShowAlts, ShowAlt, GoodAlt, AfterFirst;
    var a, more := ShowAlt(alts[0]), AfterFirst(alts, post);
    AltsSplit(alts, post);
    PieceAt(p, pl, a, more);
    ScansPassAlt(p[..pl], alts[0], more, 0);
    CutHere(p, pl + |a|);
  }

  /** What follows the first alternative. */
  function AfterFirst(alts: seq<Alternative>, post: string): (r: string)
    requires alts != []
    ensures r != "" && r[0] == (if |alts| == 1 then '}' else ',')
    ensures r[1..] == if |alts| == 1 then post else ShowAlts(alts[1..]) + "}" + post
  {
    if |alts| == 1 then "}" + post else "," + (ShowAlts(alts[1..]) + "}" + post)
  }

  lemma AltsSplit(alts: seq<Alternative>, post: string)
    requires alts != []
    ensures ShowAlts(alts) + "}" + post == ShowAlt(alts[0]) + AfterFirst(alts, post)
  {
  }

  lemma PieceAt(p: string, pl: nat, a: string, more: string)
    requires pl <= |p| && p[pl..] == a + more && more != ""
    ensures var cut := pl + |a|; cut < |p| && p[pl..cut] == a && p[cut] == more[0] && p[cut + 1..] == more[1..]
    ensures p == p[..pl] + a + more
  {
    assert p == p[..pl] + (a + more) == p[..pl] + a + more;
  }

  lemma CutHere(p: string, cut: nat)
    requires cut < |p| && (p[cut] == ',' || p[cut] == '}')
    ensures CutOf(p, cut, 0) == cut
  {
  }

  lemma CloseAt(p: string, alts: seq<Alternative>, post: string)
    requires GoodAlts(alts) && p == "{" + ShowAlts(alts) + "}" + post
    ensures CloseOf(p, 1, 0) == 1 + |ShowAlts(alts)|
    ensures p[2 + |ShowAlts(alts)|..] == post
  {
    assert p == "{" + ShowAlts(alts) + ("}" + post);
    ScansPassAlts("{", alts, "}" + post, 0);
    assert p[1 + |ShowAlts(alts)|] == '}';
  }

  lemma {:induction false} GoodAltAt(alts: seq<Alternative>, i: nat)
    requires GoodAlts(alts) && i < |alts|
    ensures GoodAlt(alts[i]) && GoodAlts(alts[i..])
    decreases alts
  {
    if i > 0 {
      GoodAltAt(alts[1..], i - 1);
      assert alts[1..][i - 1..] == alts[i..];
    } else {
      assert alts[0..] == alts;
    }
  }

  // ---------- the matcher ----------

  /** `amatch`, for names and patterns of 7-bit characters and patterns without slashes. */
  method Amatch(s: string, p: string, ghost pat: Pattern) returns (matched: bool)
    requires Good(pat, false) && p == Show(pat) && GoodName(s)
    ensures matched <==> Accepts(pat, s)
    decreases |p|, 1
  {
    hide Accepts, Show, Good, ClassScan, InClass;
    var i, j := 0, 0;
    ghost var rest := pat;
    assert s[0..] == s && p[0..] == p;
    while true
      invariant 0 <= i <= |s| && 0 <= j <= |p|
      invariant Good(rest, false) && p[j..] == Show(rest)
      invariant Accepts(rest, s[i..]) == Accepts(pat, s)
      decreases |p| - j
    {
      var scc := At(s, i);
      assert (scc == '\0') == (s[i..] == "") && (i < |s| ==> s[i..][0] == scc && s[i..][1..] == s[i + 1..]);
      if j == |p| {
        EmptyShow(rest);
        AcceptsEmpty(s[i..]);
        return scc == '\0';
      }
      EmptyShow(rest);
      HeadOf(rest);
      AcceptsHead(rest, s[i..]);
      var c := p[j];
      assert c == Show(rest)[0] && p[j + 1..] == Show(rest)[1..];
      if c == '{' {
        matched := ExecBrc(p[j..], s[i..], rest[0].alts, rest[1..]);
        return;
      } else if c == '[' {
        ClassText(scc, p, j, rest);
        var found, next := MatchClass(scc, p, j + 1);
        if !found {
          return false;
        }
        rest, i, j := rest[1..], i + 1, next;
      } else if c == '*' {
        ghost var tail;
        j, tail := SkipStars(p, j + 1, rest[1..], s[i..]);
        if j == |p| {
          EmptyShow(tail);
          ManyAlone(s[i..]);
          assert [Many] + tail == [Many];
          return true;
        }
        matched := AnySuffix(s, i, p[j..], tail);
        AcceptsMany(tail, s[i..]);
        return;
      } else if c == '?' {
        if scc == '\0' {
          return false;
        }
        rest, i, j := rest[1..], i + 1, j + 1;
      } else {
        if c != scc {
          return false;
        }
        rest, i, j := rest[1..], i + 1, j + 1;
      }
    }
  }

  lemma AcceptsEmpty(s: string)
    ensures Accepts([], s) <==> s == ""
  {
  }

  lemma AcceptsMany(p: Pattern, s: string)
    ensures Accepts([Many] + p, s) <==> exists k :: 0 <= k <= |s| && Accepts(p, s[k..])
  {
    assert ([Many] + p)[1..] == p;
  }

  /** What the first item asks for, and the shape of its text. */
  lemma AcceptsHead(p: Pattern, s: string)
    requires Good(p, false) && p != []
    ensures Good(p[1..], false)
    ensures p[0].Lit? ==> (Accepts(p, s) <==> s != "" && s[0] == p[0].c && Accepts(p[1..], s[1..]))
    ensures p[0].One? ==> (Accepts(p, s) <==> s != "" && Accepts(p[1..], s[1..]))
    ensures p[0].Many? ==> p == [Many] + p[1..]
    ensures p[0].Class? ==>
              && GoodMembers(p[0].members)
              && Show(p) == "[" + ShowMembers(p[0].members) + "]" + Show(p[1..])
              && (Accepts(p, s) <==> s != "" && InClass(s[0], p[0].members) && Accepts(p[1..], s[1..]))
    ensures p[0].Braces? ==>
              && p[0].alts != [] && GoodAlts(p[0].alts)
              && Show(p) == "{" + ShowAlts(p[0].alts) + "}" + Show(p[1..])
              && (Accepts(p, s) <==> AnyAccepts(p[0].alts, p[1..], s))
  {
  }

  ghost predicate AnyAccepts(alts: seq<Alternative>, rest: Pattern, s: string) {
    exists i :: 0 <= i < |alts| && Accepts(alts[i].items + rest, s)
  }

  lemma AnySplits(alts: seq<Alternative>, rest: Pattern, s: string)
    ensures alts == [] ==> !AnyAccepts(alts, rest, s)
    ensures alts != [] ==>
      (AnyAccepts(alts, rest, s) <==> Accepts(alts[0].items + rest, s) || AnyAccepts(alts[1..], rest, s))
  {
    hide Accepts;
    if alts != [] {
      if AnyAccepts(alts, rest, s) {
        var i :| 0 <= i < |alts| && Accepts(alts[i].items + rest, s);
        if i > 0 {
          assert alts[1..][i - 1] == alts[i];
        }
      }
      if AnyAccepts(alts[1..], rest, s) {
        var i :| 0 <= i < |alts[1..]| && Accepts(alts[1..][i].items + rest, s);
        assert alts[i + 1] == alts[1..][i];
      }
    }
  }

  lemma ClassText(scc: char, p: string, j: nat, rest: Pattern)
    requires j < |p| && rest != [] && rest[0].Class? && GoodMembers(rest[0].members)
    requires p[j..] == "[" + ShowMembers(rest[0].members) + "]" + Show(rest[1..])
    ensures var r := ClassScan(scc, p, j + 1, 0x7FFF, false);
            && (r.Some? <==> InClass(scc, rest[0].members))
            && (r.Some? ==> scc != '\0' && j + 1 < r.value <= |p| && p[r.value..] == Show(rest[1..]))
  {
    var ms := rest[0].members;
    assert p == p[..j + 1] + ShowMembers(ms) + "]" + Show(rest[1..]);
    ClassScanIs(scc, p[..j + 1], ms, Show(rest[1..]), 0x7FFF, false);
    NoNulInClass(ms);
  }

  /** Several stars are as one. */
  method SkipStars(p: string, from: nat, ghost tail: Pattern, ghost s: string) returns (j: nat, ghost tail': Pattern)
    requires from <= |p| && Good(tail, false) && p[from..] == Show(tail)
    ensures from <= j <= |p| && Good(tail', false) && p[j..] == Show(tail')
    ensures Accepts([Many] + tail', s) == Accepts([Many] + tail, s)
  {
    hide Accepts;
    j, tail' := from, tail;
    while j < |p| && p[j] == '*'
      invariant from <= j <= |p| && Good(tail', false) && p[j..] == Show(tail')
      invariant Accepts([Many] + tail', s) == Accepts([Many] + tail, s)
      decreases |p| - j
    {
      assert tail' != [];
      HeadOf(tail');
      ManyManys(tail'[1..], s);
      assert tail' == [Many] + tail'[1..];
      assert p[j + 1..] == Show(tail')[1..];
      tail', j := tail'[1..], j + 1;
    }
  }

  lemma EmptyShow(p: Pattern)
    requires Good(p, false)
    ensures Show(p) == "" <==> p == []
  {
    if p != [] {
      HeadOf(p);
    }
  }

  lemma NoNulInClass(ms: seq<Member>)
    requires GoodMembers(ms)
    ensures !InClass('\0', ms)
  {
    forall i | 0 <= i < |ms|
      ensures !InMember('\0', ms[i])
    {
      assert GoodMember(ms[i]);
    }
  }

  /** What `*` does with the rest of the pattern: try it behind each part of the name, the whole of it included. */
  method AnySuffix(s: string, from: nat, p: string, ghost pat: Pattern) returns (matched: bool)
    requires Good(pat, false) && p == Show(pat) && GoodName(s) && from <= |s|
    ensures matched <==> exists k :: 0 <= k <= |s[from..]| && Accepts(pat, s[from..][k..])
    decreases |p|, 2
  {
    var i := from;
    while true
      invariant from <= i <= |s|
      invariant forall k :: 0 <= k < i - from ==> !Accepts(pat, s[from..][k..])
      decreases |s| - i
    {
      assert s[from..][i - from..] == s[i..];
      matched := Amatch(s[i..], p, pat);
      if matched {
        return true;
      }
      if i == |s| {
        return false;
      }
      i := i + 1;
    }
  }

  /** The loop of `execbrc` that finds the end of the group. */
  method FindClose(p: string) returns (pe: nat)
    requires p != ""
    ensures pe == CloseOf(p, 1, 0)
  {
    pe := 1;
    var brclev := 0;
    while pe < |p|
      invariant 1 <= pe && 0 <= brclev && CloseOf(p, pe, brclev) == CloseOf(p, 1, 0)
      decreases |p| - pe
    {
      if p[pe] == '{' {
        brclev, pe := brclev + 1, pe + 1;
      } else if p[pe] == '}' {
        if brclev == 0 {
          return;
        }
        brclev, pe := brclev - 1, pe + 1;
      } else if p[pe] == '[' {
        pe := PassClass(p, pe + 1);
      } else {
        pe := pe + 1;
      }
    }
  }

  method PassClass(p: string, from: nat) returns (k: nat)
    ensures k == SkipClass(p, from)
  {
    k := from;
    while k < |p| && p[k] != ']'
      invariant SkipClass(p, k) == SkipClass(p, from)
      decreases |p| - k
    {
      k := k + 1;
    }
    if k < |p| {
      k := k + 1;
    }
  }

  /** The alternative between `pl` and `pm`, with what follows the group behind it, is tried. */
  method TryAlternative(p: string, s: string, pl: nat, pm: nat, pe: nat, ghost alt: Alternative, ghost rest: Pattern)
    returns (matched: bool)
    requires pl <= pm <= pe < |p| && 1 <= pl && GoodName(s)
    requires GoodAlt(alt) && Good(rest, false) && p[pl..pm] == ShowAlt(alt) && p[pe + 1..] == Show(rest)
    ensures matched <==> Accepts(alt.items + rest, s)
    decreases |p|, 0, 0
  {
    var restbuf := p[pl..pm] + p[pe + 1..];
    ShowConcat(alt.items, rest);
    GoodOutside(alt.items);
    GoodConcat(alt.items, rest);
    matched := Amatch(s, restbuf, alt.items + rest);
  }

  /** The second loop of `execbrc` stands at `pm`, in the first of the alternatives `left`, which begins at `pl`. */
  ghost predicate InAlternative(p: string, pl: nat, pm: nat, pe: nat, lev: nat, left: seq<Alternative>, rest: Pattern) {
    && left != [] && GoodAlts(left)
    && 1 <= pl <= pm <= pl + |ShowAlt(left[0])| <= pe < |p|
    && p[pl..] == ShowAlts(left) + "}" + Show(rest)
    && pe == pl + |ShowAlts(left)|
    && CutOf(p, pm, lev) == pl + |ShowAlt(left[0])|
  }

  lemma EnterAlternative(p: string, pl: nat, pe: nat, left: seq<Alternative>, rest: Pattern)
    requires left != [] && GoodAlts(left) && 1 <= pl <= |p| && p[pl..] == ShowAlts(left) + "}" + Show(rest)
    requires pe == pl + |ShowAlts(left)|
    ensures InAlternative(p, pl, pl, pe, 0, left, rest) && pe < |p|
  {
    hide CutOf, Show, ShowAlts, ShowAlt, GoodAlts;
    CutAt(p, pl, left, Show(rest));
    ShowAltsLength(left, 0);
  }

  /** At the end of an alternative: its text, and the way into the next. */
  lemma LeaveAlternative(p: string, pl: nat, pm: nat, pe: nat, left: seq<Alternative>, rest: Pattern)
    requires InAlternative(p, pl, pm, pe, 0, left, rest) && (p[pm] == ',' || p[pm] == '}')
    ensures left != [] && GoodAlt(left[0]) && pm <= pe
    ensures p[pl..pm] == ShowAlt(left[0]) && p[pe + 1..] == Show(rest)
    ensures |left| == 1 ==> pm == pe
    ensures |left| > 1 ==> InAlternative(p, pm + 1, pm + 1, pe, 0, left[1..], rest)
  {
    hide CutOf, Show, ShowAlts, ShowAlt, GoodAlt;
    CutAt(p, pl, left, Show(rest));
    CutHere(p, pm);
    ShowAltsSplit(left);
    assert p[pe + 1..] == p[pl..][|ShowAlts(left)| + 1..];
    if |left| > 1 {
      EnterAlternative(p, pm + 1, pe, left[1..], rest);
    }
  }

  /** What the loop of `execbrc` does within an alternative. */
  lemma StayInside(p: string, pl: nat, pm: nat, pe: nat, lev: nat, left: seq<Alternative>, rest: Pattern)
    requires pm < |p| && InAlternative(p, pl, pm, pe, lev, left, rest) && (p[pm] == ',' || p[pm] == '}' ==> lev > 0)
    ensures p[pm] == '{' ==> InAlternative(p, pl, pm + 1, pe, lev + 1, left, rest)
    ensures p[pm] == '}' ==> InAlternative(p, pl, pm + 1, pe, lev - 1, left, rest)
    ensures p[pm] == '[' ==> InAlternative(p, pl, SkipClass(p, pm + 1), pe, lev, left, rest)
    ensures p[pm] !in "{}[" ==> InAlternative(p, pl, pm + 1, pe, lev, left, rest)
  {
    hide Show, ShowAlts, ShowAlt, GoodAlts, SkipClass;
  }

  /** `execbrc` as `amatch` calls it, at a brace. */
  method ExecBrc(p: string, s: string, ghost alts: seq<Alternative>, ghost rest: Pattern) returns (matched: bool)
    requires alts != [] && GoodAlts(alts) && Good(rest, false) && GoodName(s)
    requires p == "{" + ShowAlts(alts) + "}" + Show(rest)
    ensures matched <==> AnyAccepts(alts, rest, s)
    decreases |p|, 0, 1
  {
    hide Accepts, AnyAccepts, Show, ShowAlts, ShowAlt, Good, GoodAlts, CutOf;
    CloseAt(p, alts, Show(rest));
    var pe := FindClose(p);
    var brclev, pl, pm := 0, 1, 1;
    ghost var left := alts;
    assert p[1..] == ShowAlts(alts) + "}" + Show(rest);
    EnterAlternative(p, 1, pe, alts, rest);
    while pm <= pe
      invariant 0 <= brclev && 1 <= pl <= pm
      invariant AnyAccepts(left, rest, s) == AnyAccepts(alts, rest, s)
      invariant left == [] ==> pm == pe + 1
      invariant left != [] ==> InAlternative(p, pl, pm, pe, brclev, left, rest)
      decreases pe - pm
    {
      if (p[pm] != ',' && p[pm] != '}') || brclev != 0 {
        StayInside(p, pl, pm, pe, brclev, left, rest);
      }
      if p[pm] == '{' {
        brclev, pm := brclev + 1, pm + 1;
      } else if (p[pm] == ',' || p[pm] == '}') && brclev == 0 {
        LeaveAlternative(p, pl, pm, pe, left, rest);
        AnySplits(left, rest, s);
        matched := TryAlternative(p, s, pl, pm, pe, left[0], rest);
        if matched {
          return true;
        }
        left, pl, pm := left[1..], pm + 1, pm + 1;
      } else if p[pm] == '}' {
        brclev, pm := brclev - 1, pm + 1;
      } else if p[pm] == '[' {
        pm := PassClass(p, pm + 1);
      } else {
        pm := pm + 1;
      }
    }
    AnySplits(left, rest, s);
    matched := false;
  }

  /** `match`: a leading dot must be matched by a dot that the pattern begins with. */
  method Match(s: string, p: string, ghost pat: Pattern) returns (matched: bool)
    requires Good(pat, false) && p == Show(pat) && GoodName(s)
    ensures matched <==> (At(s, 0) == '.' ==> At(p, 0) == '.') && Accepts(pat, s)
  {
    if At(s, 0) == '.' && At(p, 0) != '.' {
      return false;
    }
    matched := Amatch(s, p, pat);
  }
}
