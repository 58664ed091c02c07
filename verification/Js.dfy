/** The string operations of the host language that several files use. */
module Js {

  predicate IsSpace(c: char) {
    || '\t' <= c <= '\r' || c == ' ' || c == '\U{00A0}' || c == '\U{FEFF}' || c == '\U{1680}'
    || '\U{2000}' <= c <= '\U{200A}' || c == '\U{2028}' || c == '\U{2029}' || c == '\U{202F}'
    || c == '\U{205F}' || c == '\U{3000}'
  }

  function TrimStart(s: string): (t: string)
    ensures t != "" ==> !IsSpace(t[0])
    ensures |t| <= |s| && t == s[|s| - |t|..]
  {
    if s != "" && IsSpace(s[0]) then TrimStart(s[1..]) else s
  }

  function TrimEnd(s: string): (t: string)
    ensures t != "" ==> !IsSpace(t[|t| - 1])
    ensures t <= s
  {
    if s != "" && IsSpace(s[|s| - 1]) then TrimEnd(s[..|s| - 1]) else s
  }

  predicate IsTrimmed(s: string) {
    s != "" ==> !IsSpace(s[0]) && !IsSpace(s[|s| - 1])
  }

  function Trim(s: string): (t: string)
    ensures IsTrimmed(t)
    ensures IsTrimmed(s) ==> t == s
  {
    TrimEnd(TrimStart(s))
  }

  ghost predicate AllSpaces(s: string) {
    forall i | 0 <= i < |s| :: IsSpace(s[i])
  }

  /** Trimming takes away exactly the white space around a text. */
  lemma TrimAround(left: string, core: string, right: string)
    requires AllSpaces(left) && AllSpaces(right) && core != "" && IsTrimmed(core)
    ensures Trim(left + core + right) == core
  {
    assert left + core + right == left + (core + right);
    TrimStartAround(left, core + right);
    TrimEndAround(core, right);
  }

  lemma {:induction false} TrimStartAround(left: string, rest: string)
    requires AllSpaces(left) && rest != "" && !IsSpace(rest[0])
    ensures TrimStart(left + rest) == rest
  {
    if left == "" {
      assert left + rest == rest;
    } else {
      TrimStartAround(left[1..], rest);
      assert (left + rest)[1..] == left[1..] + rest;
    }
  }

  lemma {:induction false} TrimEndAround(core: string, right: string)
    requires AllSpaces(right) && core != "" && !IsSpace(core[|core| - 1])
    ensures TrimEnd(core + right) == core
  {
    if right == "" {
      assert core + right == core;
    } else {
      TrimEndAround(core, right[..|right| - 1]);
      assert (core + right)[..|core + right| - 1] == core + right[..|right| - 1];
    }
  }

  lemma {:induction false} TrimBlank(s: string)
    requires AllSpaces(s)
    ensures Trim(s) == ""
  {
    if s != "" {
      TrimBlank(s[1..]);
    }
  }

  /** The text between white space on both sides is what trimming leaves. */
  lemma TrimParts(s: string) returns (left: string, right: string)
    ensures s == left + Trim(s) + right && AllSpaces(left) && AllSpaces(right)
  {
    var t, core := TrimStart(s), Trim(s);
    assert core == TrimEnd(t);
    left, right := s[..|s| - |t|], t[|core|..];
    assert AllSpaces(left) by {
      TrimStartSpaces(s);
    }
    assert AllSpaces(right) by {
      TrimEndSpaces(t);
    }
    assert s == left + core + right by {
      Rejoin(s, t, core, left, right);
    }
  }

  lemma Rejoin(s: string, t: string, core: string, left: string, right: string)
    requires |t| <= |s| && t == s[|s| - |t|..] && core <= t && left == s[..|s| - |t|] && right == t[|core|..]
    ensures s == left + core + right
  {
    assert t == core + t[|core|..];
    assert s == s[..|s| - |t|] + t;
  }

  /** A text trims to nothing exactly when it is all white space. */
  lemma BlankIff(s: string)
    ensures Trim(s) == "" <==> AllSpaces(s)
  {
    if Trim(s) == "" {
      var left, right := TrimParts(s);
      assert s == left + right;
    }
    if AllSpaces(s) {
      TrimBlank(s);
    }
  }

  lemma {:induction false} TrimStartSpaces(s: string)
    ensures AllSpaces(s[..|s| - |TrimStart(s)|])
  {
    if s != "" && IsSpace(s[0]) {
      TrimStartSpaces(s[1..]);
      var n := |s| - |TrimStart(s)|;
      assert forall i | 1 <= i < n :: s[i] == s[1..][..n - 1][i - 1];
    }
  }

  lemma {:induction false} TrimEndSpaces(s: string)
    ensures AllSpaces(s[|TrimEnd(s)|..])
  {
    if s != "" && IsSpace(s[|s| - 1]) {
      var init, n := s[..|s| - 1], |TrimEnd(s)|;
      TrimEndSpaces(init);
      assert forall i | n <= i < |init| :: s[i] == init[n..][i - n];
    }
  }

  /** Blanks, tabs and line ends are white space; visible ASCII characters are not. */
  lemma SpacesAre(c: char)
    ensures c == ' ' || c == '\t' || c == '\n' || c == '\r' ==> IsSpace(c)
    ensures '!' <= c <= '~' ==> !IsSpace(c)
  {
  }

  /** Lower case of the ASCII letters; other characters stay. */
  function LowerChar(c: char): char {
    if 'A' <= c <= 'Z' then c - 'A' + 'a' else c
  }

  /** The capitals have the lower letter 32 places on, and nothing else changes. */
  lemma LowerCharIs(c: char)
    ensures LowerChar(c) as int == if 65 <= c as int <= 90 then c as int + 32 else c as int
  {
  }

  function ToLower(s: string): (t: string)
    ensures |t| == |s|
    ensures forall i | 0 <= i < |s| :: t[i] == LowerChar(s[i])
  {
    if s == "" then "" else [LowerChar(s[0])] + ToLower(s[1..])
  }

  // ----- code-unit order

  predicate Less(a: string, b: string) {
    b != "" && (a == "" || a[0] < b[0] || (a[0] == b[0] && Less(a[1..], b[1..])))
  }

  lemma LessIrreflexive(a: string)
    ensures !Less(a, a)
  {
  }

  lemma {:induction false} LessTransitive(a: string, b: string, c: string)
    requires Less(a, b) && Less(b, c)
    ensures Less(a, c)
  {
    if a != "" && a[0] == b[0] == c[0] {
      LessTransitive(a[1..], b[1..], c[1..]);
    }
  }

  lemma {:induction false} LessTotal(a: string, b: string)
    ensures Less(a, b) || a == b || Less(b, a)
  {
    if a != "" && b != "" && a[0] == b[0] {
      LessTotal(a[1..], b[1..]);
      assert a == [a[0]] + a[1..] && b == [b[0]] + b[1..];
    }
  }

  ghost predicate StrictlySorted(xs: seq<string>) {
    forall i, j | 0 <= i < j < |xs| :: Less(xs[i], xs[j])
  }

  /** A strictly sorted list is determined by its elements. */
  lemma {:induction false} SortedUnique(xs: seq<string>, ys: seq<string>)
    requires StrictlySorted(xs) && StrictlySorted(ys)
    requires forall x :: x in xs <==> x in ys
    ensures xs == ys
  {
    assert ys != [] ==> ys[0] in ys;
    if xs != [] {
      assert xs[0] in ys && ys[0] in xs;
      SameHead(xs, ys);
      forall x ensures x in xs[1..] <==> x in ys[1..] {
        LessIrreflexive(x);
        assert x in xs <==> x == xs[0] || x in xs[1..];
        assert x in ys <==> x == ys[0] || x in ys[1..];
      }
      SortedUnique(xs[1..], ys[1..]);
      assert xs == [xs[0]] + xs[1..] && ys == [ys[0]] + ys[1..];
    }
  }

  lemma SameHead(xs: seq<string>, ys: seq<string>)
    requires StrictlySorted(xs) && StrictlySorted(ys) && xs != [] && ys != []
    requires xs[0] in ys && ys[0] in xs
    ensures xs[0] == ys[0]
  {
    var i :| 0 <= i < |ys| && ys[i] == xs[0];
    var j :| 0 <= j < |xs| && xs[j] == ys[0];
    if i > 0 && j > 0 {
      LessTransitive(xs[0], ys[0], xs[0]);
      LessIrreflexive(xs[0]);
    }
  }

  /** `Array.from(new Set(...)).toSorted()`, one element at a time. */
  function Insert(xs: seq<string>, x: string): (r: seq<string>)
    ensures forall y :: y in r <==> y == x || y in xs
  {
    if xs == [] then [x]
    else if x == xs[0] then xs
    else if Less(x, xs[0]) then [x] + xs
    else
      var rest := Insert(xs[1..], x);
      assert forall y :: y in xs <==> y == xs[0] || y in xs[1..];
      [xs[0]] + rest
  }

  lemma {:induction false} InsertSorted(xs: seq<string>, x: string)
    requires StrictlySorted(xs)
    ensures StrictlySorted(Insert(xs, x))
  {
    if xs != [] {
      if Less(x, xs[0]) {
        forall i | 0 < i < |xs| ensures Less(x, xs[i]) {
          LessTransitive(x, xs[0], xs[i]);
        }
      } else if x != xs[0] {
        LessTotal(x, xs[0]);
        InsertSorted(xs[1..], x);
        var rest := Insert(xs[1..], x);
        forall i | 0 <= i < |rest| ensures Less(xs[0], rest[i]) {
          assert rest[i] in rest;
        }
      }
    }
  }

  function SortedSet(xs: seq<string>): (r: seq<string>)
    ensures forall y :: y in r <==> y in xs
  {
    if xs == [] then [] else
      assert forall y :: y in xs <==> y == xs[|xs| - 1] || y in xs[..|xs| - 1];
      Insert(SortedSet(xs[..|xs| - 1]), xs[|xs| - 1])
  }

  lemma {:induction false} SortedSetSorted(xs: seq<string>)
    ensures StrictlySorted(SortedSet(xs))
  {
    if xs != [] {
      SortedSetSorted(xs[..|xs| - 1]);
      InsertSorted(SortedSet(xs[..|xs| - 1]), xs[|xs| - 1]);
    }
  }

  /** Two lists have the same sorted set exactly when they have the same elements. */
  lemma SortedSetEqual(xs: seq<string>, ys: seq<string>)
    ensures SortedSet(xs) == SortedSet(ys) <==> forall x :: x in xs <==> x in ys
  {
    if forall x :: x in xs <==> x in ys {
      SortedSetSorted(xs);
      SortedSetSorted(ys);
      SortedUnique(SortedSet(xs), SortedSet(ys));
    }
    if SortedSet(xs) == SortedSet(ys) {
      forall x ensures x in xs <==> x in ys {
        assert x in SortedSet(xs) <==> x in SortedSet(ys);
      }
    }
  }

  /** Decimal text of an integer. */
  function IntText(n: int): string {
    if n < 0 then "-" + NatText(-n) else NatText(n)
  }

  /** Different integers have different texts. */
  lemma IntTextInjective(a: int, b: int)
    ensures IntText(a) == IntText(b) <==> a == b
  {
    if IntText(a) == IntText(b) {
      NatTextDigits(if a < 0 then -a else a);
      NatTextDigits(if b < 0 then -b else b);
      if a < 0 && b < 0 {
        assert IntText(a)[1..] == NatText(-a) && IntText(b)[1..] == NatText(-b);
        NatTextInjective(-a, -b);
      } else if a >= 0 && b >= 0 {
        NatTextInjective(a, b);
      }
    }
  }

  lemma {:induction false} NatTextDigits(n: nat)
    ensures NatText(n) != "" && NatText(n)[0] != '-'
  {
    if n >= 10 {
      NatTextDigits(n / 10);
    }
  }

  lemma {:induction false} NatTextInjective(a: nat, b: nat)
    requires NatText(a) == NatText(b)
    ensures a == b
  {
    var s := NatText(a);
    assert s[|s| - 1] == Digit(a % 10) == Digit(b % 10);
    if |s| > 1 {
      NatTextLength(a);
      NatTextLength(b);
      assert s[..|s| - 1] == NatText(a / 10) == NatText(b / 10);
      NatTextInjective(a / 10, b / 10);
    } else {
      NatTextLength(a);
      NatTextLength(b);
    }
  }

  lemma {:induction false} NatTextLength(n: nat)
    ensures |NatText(n)| == 1 <==> n < 10
  {
    if n >= 10 {
      NatTextDigits(n / 10);
    }
  }

  function NatText(n: nat): string {
    if n < 10 then [Digit(n)] else NatText(n / 10) + [Digit(n % 10)]
  }

  function Digit(d: nat): char
    requires d < 10
  {
    "0123456789"[d]
  }
}
