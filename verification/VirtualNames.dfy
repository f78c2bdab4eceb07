/** Virtual file names: a real file name, a class string and a multiconfig name in one string. */
module VirtualNames {
  import opened Text

  datatype Parts = Parts(fn: string, cls: string, mc: string)

  /** `s.count(':')` */
  function Colons(s: string): nat {
    if |s| == 0 then 0 else (if s[0] == ':' then 1 else 0) + Colons(s[1..])
  }

  /** `s.split(':', 2)` of a string with at least two colons. */
  function SplitTwo(s: string): (string, string, string)
    requires Colons(s) >= 2
  {
    ColonsAfterFirst(s);
    var i := FindOrEnd(s, ':');
    var rest := s[i + 1..];
    ColonsAfterFirst(rest);
    var j := FindOrEnd(rest, ':');
    (s[..i], rest[..j], rest[j + 1..])
  }

  lemma {:induction false} ColonsAfterFirst(s: string)
    requires Colons(s) > 0
    ensures FindOrEnd(s, ':') < |s| && Colons(s[FindOrEnd(s, ':') + 1..]) == Colons(s) - 1
  {
    if s[0] != ':' {
      ColonsAfterFirst(s[1..]);
      var i := FindOrEnd(s[1..], ':');
      assert s[1..][i + 1..] == s[i + 2..];
    }
  }

  /** `virtualfn2realfn` */
  function Parse(virtualfn: string): Parts {
    var (mc, rest) :=
      if StartsWith(virtualfn, "mc:") && Colons(virtualfn) >= 2 then
        var (_, mc, rest) := SplitTwo(virtualfn);
        (mc, rest)
      else ("", virtualfn);
    ParseRest(rest, mc)
  }

  /** The class string and the file name. */
  function ParseRest(rest: string, mc: string): Parts {
    if StartsWith(rest, "virtual:") then
      var elems := Split(rest, ':');
      Parts(elems[|elems| - 1], if |elems| >= 2 then Join(elems[1..|elems| - 1], ':') else "", mc)
    else Parts(rest, "", mc)
  }

  /** `realfn2virtual` */
  function Print(p: Parts): string {
    var named := if p.cls != "" then "virtual:" + p.cls + ":" + p.fn else p.fn;
    if p.mc != "" then "mc:" + p.mc + ":" + named else named
  }

  /** `variant2virtual` */
  function FromVariant(realfn: string, variant: string): string {
    if variant == "" then realfn
    else if StartsWith(variant, "mc:") && Colons(variant) >= 2 then
      var elems := Split(variant, ':');
      SplitSize(variant, ':');
      if elems[2] != "" then "mc:" + elems[1] + ":virtual:" + Join(elems[2..], ':') + ":" + realfn
      else "mc:" + elems[1] + ":" + realfn
    else "virtual:" + variant + ":" + realfn
  }

  // ----- splitting -----

  lemma {:induction false} SplitSize(s: string, c: char)
    requires c == ':'
    ensures |Split(s, c)| == Colons(s) + 1
  {
    var i := FindOrEnd(s, c);
    if Colons(s) > 0 {
      ColonsAfterFirst(s);
      SplitSize(s[i + 1..], c);
    } else {
      NoColons(s);
    }
  }

  lemma {:induction false} NoColons(s: string)
    ensures Colons(s) == 0 <==> ':' !in s
    ensures Colons(s) == 0 ==> FindOrEnd(s, ':') == |s|
  {
    if |s| > 0 { NoColons(s[1..]); }
  }

  lemma {:induction false} FindFirst(a: string, b: string, c: char)
    requires c !in a
    ensures FindOrEnd(a + [c] + b, c) == |a|
    decreases |a|
  {
    var s := a + [c] + b;
    if |a| > 0 {
      FindFirst(a[1..], b, c);
      assert s[1..] == a[1..] + [c] + b;
      assert s[0] == a[0];
    }
  }

  /** A part without separator splits off in front. */
  lemma SplitFront(a: string, b: string, c: char)
    requires c !in a
    ensures Split(a + [c] + b, c) == [a] + Split(b, c)
  {
    var s := a + [c] + b;
    FindFirst(a, b, c);
    assert s[..|a|] == a && s[|a| + 1..] == b;
  }

  /** A part without separator splits off at the end. */
  lemma {:induction false} SplitBack(s: string, fn: string, c: char)
    requires c !in fn
    ensures Split(s + [c] + fn, c) == Split(s, c) + [fn]
    decreases |s|
  {
    hide Split, FindOrEnd;
    var i := FindOrEnd(s, c);
    if i == |s| {
      SplitFront(s, fn, c);
      SplitNone(fn, c);
      SplitNone(s, c);
    } else {
      var rest := s[i + 1..];
      SplitBack(rest, fn, c);
      Regroup(s, i, c, fn);
      SplitFront(s[..i], rest + [c] + fn, c);
      SplitFront(s[..i], rest, c);
    }
  }

  lemma Regroup(s: string, i: nat, c: char, fn: string)
    requires i < |s| && s[i] == c
    ensures s == s[..i] + [c] + s[i + 1..]
    ensures s + [c] + fn == s[..i] + [c] + (s[i + 1..] + [c] + fn)
  {
  }

  lemma {:induction false} SplitNone(s: string, c: char)
    requires c !in s
    ensures Split(s, c) == [s] && FindOrEnd(s, c) == |s|
  {
  }

  lemma {:induction false} ColonsConcat(a: string, b: string)
    ensures Colons(a + b) == Colons(a) + Colons(b)
    decreases |a|
  {
    if |a| > 0 {
      ColonsConcat(a[1..], b);
      assert (a + b)[1..] == a[1..] + b;
    } else {
      assert a + b == b;
    }
  }

  // ----- the round trip -----

  /** The part of `Parse` after the multiconfig. */
  lemma ParseNamed(fn: string, cls: string)
    requires ':' !in fn
    ensures var named := if cls != "" then "virtual:" + cls + ":" + fn else fn;
      && (cls != "" ==> StartsWith(named, "virtual:") && Split(named, ':') == ["virtual"] + Split(cls, ':') + [fn])
      && (cls == "" ==> !StartsWith(named, "virtual:"))
      && !StartsWith(named, "mc:")
  {
    if cls != "" {
      var named := "virtual:" + cls + ":" + fn;
      assert named == "virtual" + [':'] + (cls + [':'] + fn);
      SplitFront("virtual", cls + [':'] + fn, ':');
      SplitBack(cls, fn, ':');
      assert named[..8] == "virtual:";
      assert named[0] == 'v' && "mc:"[0] == 'm';
    } else {
      if StartsWith(fn, "virtual:") { ColonAt(fn, "virtual:", 7); }
      if StartsWith(fn, "mc:") { ColonAt(fn, "mc:", 2); }
    }
  }

  lemma ColonAt(s: string, pre: string, k: nat)
    requires StartsWith(s, pre) && k < |pre| && pre[k] == ':'
    ensures ':' in s
  {
    assert s[..|pre|][k] == s[k];
  }

  lemma JoinMiddle(cls: string, fn: string)
    ensures var elems := ["virtual"] + Split(cls, ':') + [fn];
      Join(elems[1..|elems| - 1], ':') == cls && elems[|elems| - 1] == fn
  {
    var elems := ["virtual"] + Split(cls, ':') + [fn];
    assert elems[1..|elems| - 1] == Split(cls, ':');
    JoinSplit(cls, ':');
  }

  /** mc:X:rest, grouped from the right. */
  lemma Regrouped(mc: string, rest: string)
    ensures "mc:" + mc + ":" + rest == "mc" + [':'] + (mc + [':'] + rest)
  {
  }

  lemma ColonsFront(a: string, rest: string)
    requires ':' !in a
    ensures Colons(a + [':'] + rest) == 1 + Colons(rest)
  {
    assert a + [':'] + rest == a + ([':'] + rest);
    ColonsConcat(a, [':'] + rest);
    NoColons(a);
    assert ([':'] + rest)[1..] == rest;
  }

  lemma SplitTwoOf(mc: string, rest: string)
    requires ':' !in mc
    ensures StartsWith("mc:" + mc + ":" + rest, "mc:") && Colons("mc:" + mc + ":" + rest) >= 2
    ensures SplitTwo("mc:" + mc + ":" + rest) == ("mc", mc, rest)
  {
    hide Colons;
    var t := mc + [':'] + rest;
    var s := "mc" + [':'] + t;
    Regrouped(mc, rest);
    ColonsFront("mc", t);
    ColonsFront(mc, rest);
    assert s[..3] == "mc:" && s[..2] == "mc" && s[3..] == t;
    FindFirst("mc", t, ':');
    FindFirst(mc, rest, ':');
    assert t[..|mc|] == mc && t[|mc| + 1..] == rest;
  }

  /** Printing and parsing undo each other for colon-free file and multiconfig names and any class string. */
  lemma ParseUndoesPrint(p: Parts)
    requires ':' !in p.fn && ':' !in p.mc
    ensures Parse(Print(p)) == p
  {
    var named := if p.cls != "" then "virtual:" + p.cls + ":" + p.fn else p.fn;
    ParseNamed(p.fn, p.cls);
    JoinMiddle(p.cls, p.fn);
    if p.mc != "" {
      SplitTwoOf(p.mc, named);
    }
  }

  /** So no two of them print alike. */
  lemma PrintIsInjective(p: Parts, q: Parts)
    requires ':' !in p.fn && ':' !in p.mc && ':' !in q.fn && ':' !in q.mc && Print(p) == Print(q)
    ensures p == q
  {
    ParseUndoesPrint(p);
    ParseUndoesPrint(q);
  }

  /** The class string and the file name are told apart again. */
  predicate ReadsBack(fn: string, cls: string) {
    if cls != "" then ':' !in fn else !StartsWith(fn, "virtual:")
  }

  /** The whole string is taken for a multiconfig name. */
  predicate LooksMulti(s: string) { StartsWith(s, "mc:") && Colons(s) >= 2 }

  /**
   The round trip, exactly: no colon in the multiconfig name; with a class no colon in the file name; and
   without a class a file name that looks neither virtual nor, when there is no multiconfig, like one with.
   */
  lemma RoundTripIff(p: Parts)
    ensures Parse(Print(p)) == p <==>
      ':' !in p.mc && ReadsBack(p.fn, p.cls) && (p.cls == "" && p.mc == "" ==> !LooksMulti(p.fn))
  {
    hide Split, Join, SplitTwo;
    var named := if p.cls != "" then "virtual:" + p.cls + ":" + p.fn else p.fn;
    if p.mc == "" {
      if p.cls != "" { assert named[0] == 'v' && "mc:"[0] == 'm'; }
      if LooksMulti(named) { ParsedIsShorter(named); } else { ReadsBackIff(p.fn, p.cls, p.mc); }
    } else if ':' in p.mc {
      MultiIsColonFree(Print(p));
    } else {
      SplitTwoOf(p.mc, named);
      ReadsBackIff(p.fn, p.cls, p.mc);
    }
  }

  lemma MultiIsColonFree(s: string)
    ensures ':' !in Parse(s).mc
  {
    hide Split, Join;
    if LooksMulti(s) { SplitTwoParts(s); }
  }

  lemma SplitTwoParts(s: string)
    requires Colons(s) >= 2
    ensures ':' !in SplitTwo(s).1 && |SplitTwo(s).2| < |s|
  {
    ColonsAfterFirst(s);
    ColonsAfterFirst(s[FindOrEnd(s, ':') + 1..]);
  }

  lemma ParsedIsShorter(s: string)
    requires LooksMulti(s)
    ensures |Parse(s).fn| < |s|
  {
    hide Split, Join, SplitTwo;
    SplitTwoParts(s);
    LastIsShort(SplitTwo(s).2);
  }

  lemma {:induction false} LastIsShort(s: string)
    ensures var parts := Split(s, ':'); |parts[|parts| - 1]| <= |s|
  {
    var i := FindOrEnd(s, ':');
    if i < |s| { LastIsShort(s[i + 1..]); }
  }

  lemma ReadsBackIff(fn: string, cls: string, mc: string)
    ensures var named := if cls != "" then "virtual:" + cls + ":" + fn else fn;
      ParseRest(named, mc) == Parts(fn, cls, mc) <==> ReadsBack(fn, cls)
  {
    hide Split, Join;
    var named := if cls != "" then "virtual:" + cls + ":" + fn else fn;
    var elems := Split(named, ':');
    if cls != "" {
      assert named[..8] == "virtual:";
      assert elems[|elems| - 1] in elems;
      if ':' !in fn {
        ParseNamed(fn, cls);
        JoinMiddle(cls, fn);
      }
    } else if StartsWith(fn, "virtual:") {
      assert elems[|elems| - 1] in elems;
      ColonAt(fn, "virtual:", 7);
    }
  }

  // ----- variants -----

  /** On variants that are not of the form mc:X:rest, `variant2virtual` is `realfn2virtual`. */
  lemma PlainVariant(fn: string, variant: string)
    requires !(StartsWith(variant, "mc:") && Colons(variant) >= 2)
    ensures FromVariant(fn, variant) == Print(Parts(fn, variant, ""))
  {
  }

  lemma SplitVariant(x: string, rest: string)
    requires ':' !in x
    ensures var elems := Split("mc:" + x + ":" + rest, ':');
      |elems| >= 3 && elems[1] == x && elems[2..] == Split(rest, ':')
    ensures Split(rest, ':')[0] == "" <==> (rest == "" || rest[0] == ':')
  {
    Regrouped(x, rest);
    SplitFront("mc", x + [':'] + rest, ':');
    SplitFront(x, rest, ':');
    var tail := Split(rest, ':');
    assert ["mc"] + ([x] + tail) == ["mc", x] + tail;
    assert tail[0] == rest[..FindOrEnd(rest, ':')];
  }

  /** What `variant2virtual` makes of mc:X:rest. */
  lemma FromMulticonfig(fn: string, x: string, rest: string)
    requires ':' !in x
    ensures FromVariant(fn, "mc:" + x + ":" + rest) ==
      if rest == "" || rest[0] == ':' then "mc:" + x + ":" + fn else "mc:" + x + ":virtual:" + rest + ":" + fn
  {
    hide Colons, Split, Join;
    SplitTwoOf(x, rest);
    SplitVariant(x, rest);
    JoinSplit(rest, ':');
  }

  /** On mc:X:rest they agree exactly when X is not empty and rest does not begin with a colon. */
  lemma MulticonfigVariant(fn: string, x: string, rest: string)
    requires ':' !in x
    ensures FromVariant(fn, "mc:" + x + ":" + rest) == Print(Parts(fn, rest, x)) <==>
      x != "" && (rest == "" || rest[0] != ':')
  {
    hide FromVariant;
    FromMulticonfig(fn, x, rest);
    var want := Print(Parts(fn, rest, x));
    if rest == "" || rest[0] == ':' {
      var got := "mc:" + x + ":" + fn;
      if rest != "" {
        if x != "" { assert |want| > |got|; } else { assert got[0] == 'm' && want[0] == 'v'; }
      } else if x == "" {
        assert |got| > |want|;
      }
    } else {
      var got := "mc:" + x + ":virtual:" + rest + ":" + fn;
      if x != "" {
        SameText(x, rest, fn);
      } else {
        assert |got| > |want|;
      }
    }
  }

  lemma SameText(x: string, rest: string, fn: string)
    ensures "mc:" + x + ":virtual:" + rest + ":" + fn == "mc:" + x + ":" + ("virtual:" + rest + ":" + fn)
  {
  }
}
