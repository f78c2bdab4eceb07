/** The few string operations of Python that the models rely on. */
module Text {
  import opened Wrappers

  /** `s.rfind(c)`: the last position of `c`, or -1. */
  function RFind(s: string, c: char): (i: int)
    ensures -1 <= i < |s|
    ensures i >= 0 ==> s[i] == c
    ensures forall j :: i < j < |s| ==> s[j] != c
  {
    if |s| == 0 then -1
    else if s[|s| - 1] == c then |s| - 1
    else RFind(s[..|s| - 1], c)
  }

  /** `s.find(c)`: the first position of `c`, or |s| when there is none. */
  function FindOrEnd(s: string, c: char): (i: nat)
    ensures i <= |s|
    ensures i < |s| ==> s[i] == c
    ensures forall j :: 0 <= j < i ==> s[j] != c
  {
    if |s| == 0 || s[0] == c then 0 else 1 + FindOrEnd(s[1..], c)
  }

  /** `s.split(c)`: never empty. */
  function Split(s: string, c: char): (parts: seq<string>)
    ensures |parts| >= 1
    ensures forall p :: p in parts ==> c !in p
  {
    var i := FindOrEnd(s, c);
    if i == |s| then [s] else [s[..i]] + Split(s[i + 1..], c)
  }

  /** `c.join(parts)` */
  function Join(parts: seq<string>, c: char): string {
    if |parts| == 0 then ""
    else if |parts| == 1 then parts[0]
    else parts[0] + [c] + Join(parts[1..], c)
  }

  lemma JoinCons(p: string, ps: seq<string>, c: char)
    requires |ps| > 0
    ensures Join([p] + ps, c) == p + [c] + Join(ps, c)
  {
    assert ([p] + ps)[1..] == ps;
  }

  lemma SplitUnfolds(s: string, c: char)
    ensures var i := FindOrEnd(s, c); i < |s| ==> Split(s, c) == [s[..i]] + Split(s[i + 1..], c)
    ensures FindOrEnd(s, c) == |s| ==> Split(s, c) == [s]
  {
    hide FindOrEnd;
  }

  lemma {:induction false} JoinSplit(s: string, c: char)
    ensures Join(Split(s, c), c) == s
  {
    hide Split, FindOrEnd;
    var i := FindOrEnd(s, c);
    SplitUnfolds(s, c);
    if i < |s| {
      JoinSplit(s[i + 1..], c);
      JoinCons(s[..i], Split(s[i + 1..], c), c);
      assert s == s[..i] + [c] + s[i + 1..];
    }
  }

  predicate StartsWith(s: string, pre: string) {
    |pre| <= |s| && s[..|pre|] == pre
  }

  predicate EndsWith(s: string, suf: string) {
    |suf| <= |s| && s[|s| - |suf|..] == suf
  }

  /** `pat in s` */
  predicate Contains(s: string, pat: string) {
    StartsWith(s, pat) || (|s| > 0 && Contains(s[1..], pat))
  }

  /** `s.replace(pat, rep)`; an empty pattern is found before and after every character. */
  function Replace(s: string, pat: string, rep: string): (r: string)
    ensures rep == "" && pat != "" ==> |r| <= |s|
    decreases |s|
  {
    if pat == "" then rep + if s == "" then "" else [s[0]] + Replace(s[1..], pat, rep)
    else if s == "" then ""
    else if StartsWith(s, pat) then rep + Replace(s[|pat|..], pat, rep)
    else [s[0]] + Replace(s[1..], pat, rep)
  }

  /** `s.replace(pat, "")` for a non-empty `pat`. */
  function Without(s: string, pat: string): (r: string)
    requires |pat| > 0
    ensures |r| <= |s|
  {
    Replace(s, pat, "")
  }

  /** Removing a pattern that ends the string makes it shorter. */
  lemma {:induction false} WithoutShrinks(s: string, pat: string)
    requires |pat| > 0 && EndsWith(s, pat)
    ensures |Without(s, pat)| < |s|
  {
    if !StartsWith(s, pat) {
      assert |s| > |pat|;
      assert EndsWith(s[1..], pat) by {
        assert s[1..][|s| - 1 - |pat|..] == s[|s| - |pat|..];
      }
      WithoutShrinks(s[1..], pat);
    }
  }

  predicate IsSpace(c: char) {
    c == ' ' || c == '\t' || c == '\n' || c == '\r' || c == 11 as char || c == 12 as char
  }

  function SpaceOrEnd(s: string): (i: nat)
    ensures i <= |s|
    ensures i < |s| ==> IsSpace(s[i])
    ensures forall j :: 0 <= j < i ==> !IsSpace(s[j])
  {
    if |s| == 0 || IsSpace(s[0]) then 0 else 1 + SpaceOrEnd(s[1..])
  }

  /** `re.split(r'(\s)', s)`: words and the single blanks between them. */
  function Pieces(s: string): (ps: seq<string>) {
    var i := SpaceOrEnd(s);
    if i == |s| then [s] else [s[..i], [s[i]]] + Pieces(s[i + 1..])
  }

  /** `s.split()`: the words of `s`. */
  function Words(s: string): (ws: set<string>)
    ensures forall w :: w in ws ==> |w| > 0 && forall c :: c in w ==> !IsSpace(c)
  {
    var i := SpaceOrEnd(s);
    var first := if i == 0 then {} else {s[..i]};
    if i == |s| then first else first + Words(s[i + 1..])
  }

  function Concat(ps: seq<string>): string {
    if |ps| == 0 then "" else ps[0] + Concat(ps[1..])
  }

  function DropPieces(ps: seq<string>, bad: set<string>): seq<string> {
    if |ps| == 0 then []
    else (if ps[0] in bad then [] else [ps[0]]) + DropPieces(ps[1..], bad)
  }

  /** What `:remove` does to an expanded value. */
  function DropWords(s: string, bad: set<string>): string {
    Concat(DropPieces(Pieces(s), bad))
  }

  lemma {:induction false} ConcatPieces(s: string)
    ensures Concat(Pieces(s)) == s
  {
    var i := SpaceOrEnd(s);
    if i < |s| {
      ConcatPieces(s[i + 1..]);
      ConcatTwo(s[..i], [s[i]], Pieces(s[i + 1..]));
      CutAt(s, i);
    } else {
      assert Pieces(s)[1..] == [];
    }
  }

  lemma ConcatTwo(a: string, b: string, ps: seq<string>)
    ensures Concat([a, b] + ps) == a + (b + Concat(ps))
  {
    assert ([a, b] + ps)[1..] == [b] + ps && ([b] + ps)[1..] == ps;
  }

  lemma CutAt(s: string, i: nat)
    requires i < |s|
    ensures s == s[..i] + ([s[i]] + s[i + 1..]) && s == s[..i] + [s[i]] + s[i + 1..]
  {
  }

  lemma {:induction false} DropNoPieces(ps: seq<string>)
    ensures DropPieces(ps, {}) == ps
  {
    if |ps| > 0 {
      DropNoPieces(ps[1..]);
    }
  }

  lemma DropNoWords(s: string)
    ensures DropWords(s, {}) == s
  {
    DropNoPieces(Pieces(s));
    ConcatPieces(s);
  }

  // ----- ${NAME} references -----

  datatype Token = Lit(c: char) | Ref(name: string)

  /** The class [a-zA-Z0-9\-_+./~:] of the reference pattern. */
  predicate IsNameChar(c: char) {
    || 'a' <= c <= 'z' || 'A' <= c <= 'Z' || '0' <= c <= '9'
    || c == '-' || c == '_' || c == '+' || c == '.' || c == '/' || c == '~' || c == ':'
  }

  function NameRun(s: string): (n: nat)
    ensures n <= |s|
    ensures forall j :: 0 <= j < n ==> IsNameChar(s[j])
    ensures n < |s| ==> !IsNameChar(s[n])
  {
    if |s| == 0 || !IsNameChar(s[0]) then 0 else 1 + NameRun(s[1..])
  }

  /** Length of the reference that starts `s`, or 0 when none does. */
  function RefLength(s: string): (n: nat)
    ensures n <= |s|
    ensures n > 0 ==> n > 3 && s[..2] == "${" && s[n - 1] == '}'
  {
    if |s| >= 2 && s[..2] == "${" then
      var n := NameRun(s[2..]);
      if n > 0 && n + 2 < |s| && s[n + 2] == '}' then n + 3 else 0
    else 0
  }

  /** The leftmost, non-overlapping matches of the reference pattern. */
  function Tokens(s: string): seq<Token> {
    if |s| == 0 then []
    else
      var n := RefLength(s);
      if n > 0 then [Ref(s[2..n - 1])] + Tokens(s[n..])
      else [Lit(s[0])] + Tokens(s[1..])
  }

  function Spelled(t: Token): string {
    match t
    case Lit(c) => [c]
    case Ref(k) => "${" + k + "}"
  }

  function Unparse(ts: seq<Token>): string {
    if |ts| == 0 then "" else Spelled(ts[0]) + Unparse(ts[1..])
  }

  lemma RefPrefix(s: string, n: nat)
    requires 3 < n <= |s| && s[..2] == "${" && s[n - 1] == '}'
    ensures s == Spelled(Ref(s[2..n - 1])) + s[n..]
  {
    var r := "${" + s[2..n - 1] + "}";
    assert |r| == n;
    forall i | 0 <= i < n
      ensures r[i] == s[i]
    {
      if i < 2 { assert s[..2][i] == s[i]; }
    }
    assert r == s[..n];
  }

  lemma UnparseNil()
    ensures Unparse([]) == ""
  {
  }

  lemma LitPrefix(s: string)
    requires |s| > 0
    ensures s == Spelled(Lit(s[0])) + s[1..]
  {
  }

  lemma UnparseCons(t: Token, ts: seq<Token>)
    ensures Unparse([t] + ts) == Spelled(t) + Unparse(ts)
  {
    assert ([t] + ts)[1..] == ts;
  }

  /** Leaving every reference in place gives the text back. */
  lemma {:induction false} UnparseTokens(s: string)
    ensures Unparse(Tokens(s)) == s
  {
    hide RefLength, Spelled, Unparse;
    if |s| > 0 {
      var n := RefLength(s);
      if n > 0 {
        UnparseTokens(s[n..]);
        UnparseCons(Ref(s[2..n - 1]), Tokens(s[n..]));
        RefPrefix(s, n);
      } else {
        UnparseTokens(s[1..]);
        UnparseCons(Lit(s[0]), Tokens(s[1..]));
        LitPrefix(s);
      }
    } else {
      UnparseNil();
    }
  }
}
