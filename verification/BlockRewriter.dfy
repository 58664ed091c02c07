/** Replacing the text between two marker lines, and exactly when doing it twice changes nothing. */
module BlockRewriter {
  import opened Common

  predicate OccursAt(text: string, pattern: string, i: int) {
    0 <= i <= |text| - |pattern| && text[i..i + |pattern|] == pattern
  }

  ghost predicate Occurs(pattern: string, text: string) {
    exists i :: OccursAt(text, pattern, i)
  }

  /** `text.indexOf(pattern, start)`. */
  function IndexOf(text: string, pattern: string, start: nat): (r: int)
    ensures r == -1 || (r >= start && OccursAt(text, pattern, r))
    ensures forall i | start <= i && OccursAt(text, pattern, i) :: 0 <= r <= i
    decreases |text| - start
  {
    if start + |pattern| > |text| then -1
    else if OccursAt(text, pattern, start) then start
    else IndexOf(text, pattern, start + 1)
  }

  /** `text.lastIndexOf("\n", i)`. */
  function LastNewline(text: string, i: nat): (r: int)
    ensures -1 <= r <= i && r < |text|
    ensures r >= 0 ==> text[r] == '\n'
    ensures forall j | r < j <= i && j < |text| :: text[j] != '\n'
  {
    if i < |text| && text[i] == '\n' then i else if i == 0 then -1 else LastNewline(text, i - 1)
  }

  /** Lines joined by newlines. */
  function JoinLines(lines: seq<string>): string {
    if lines == [] then "" else if |lines| == 1 then lines[0] else lines[0] + "\n" + JoinLines(lines[1..])
  }

  function Indented(indent: string, lines: seq<string>): (r: seq<string>)
    ensures |r| == |lines|
    ensures forall i | 0 <= i < |lines| :: r[i] == indent + lines[i]
  {
    seq(|lines|, i requires 0 <= i < |lines| => indent + lines[i])
  }

  /** The start of the line the start marker sits on. */
  function LineStart(text: string, startIndex: nat): nat {
    LastNewline(text, startIndex) + 1
  }

  function LineEnd(text: string, endIndex: nat): (r: nat)
    requires endIndex <= |text|
    ensures r <= |text|
  {
    var newline := IndexOf(text, "\n", endIndex);
    if newline == -1 then |text| else newline + 1
  }

  function Indent(text: string, startIndex: nat): string
    requires startIndex <= |text|
  {
    if LineStart(text, startIndex) <= startIndex then text[LineStart(text, startIndex)..startIndex] else ""
  }

  function Block(indent: string, startMarker: string, endMarker: string, lines: seq<string>): string {
    JoinLines([indent + startMarker] + Indented(indent, lines) + [indent + endMarker])
  }

  function ReplaceBlockLines(text: string, startMarker: string, endMarker: string, lines: seq<string>): Result<string> {
    var startIndex := IndexOf(text, startMarker, 0);
    if startIndex == -1 then Err else
      var endIndex := IndexOf(text, endMarker, startIndex);
      if endIndex == -1 then Err else
        var before := text[..LineStart(text, startIndex)];
        var after := text[LineEnd(text, endIndex)..];
        Ok(Spliced(before, Block(Indent(text, startIndex), startMarker, endMarker, lines), after))
  }

  function Spliced(before: string, replacement: string, after: string): string {
    if after == "" then before + replacement else before + replacement + "\n" + after
  }

  // ----- shape of the result

  function Tail(after: string): string {
    if after == "" then "" else "\n" + after
  }

  /** The rewritten lines above the end marker's line, the first one without its indent. */
  function Upper(indent: string, startMarker: string, lines: seq<string>): seq<string> {
    [startMarker] + Indented(indent, lines)
  }

  lemma {:induction false} JoinSnoc(lines: seq<string>, last: string)
    requires lines != []
    ensures JoinLines(lines + [last]) == JoinLines(lines) + "\n" + last
  {
    assert (lines + [last])[1..] == lines[1..] + [last];
    if |lines| > 1 {
      JoinSnoc(lines[1..], last);
    }
  }

  lemma BlockShape(indent: string, startMarker: string, endMarker: string, lines: seq<string>)
    ensures Block(indent, startMarker, endMarker, lines) ==
            indent + (JoinLines(Upper(indent, startMarker, lines)) + ("\n" + (indent + endMarker)))
  {
    var inner, upper := Indented(indent, lines), Upper(indent, startMarker, lines);
    JoinSnoc([indent + startMarker] + inner, indent + endMarker);
    assert ([indent + startMarker] + inner)[1..] == inner == upper[1..];
  }

  // ----- occurrences

  /** An occurrence of a pattern without a newline does not span a newline of the text. */
  lemma NoStraddle(text: string, pattern: string, i: int, newline: int)
    requires '\n' !in pattern && OccursAt(text, pattern, i)
    requires 0 <= newline < |text| && text[newline] == '\n'
    ensures newline < i || i + |pattern| <= newline
  {
    assert forall q | 0 <= q < |pattern| :: text[i + q] == text[i..i + |pattern|][q] == pattern[q];
  }

  /** A pattern without a newline that occurs in joined lines occurs in one of them. */
  lemma {:induction false} OccursInLine(lines: seq<string>, pattern: string, i: int)
    requires '\n' !in pattern && lines != []
    requires OccursAt(JoinLines(lines), pattern, i)
    ensures exists k :: 0 <= k < |lines| && Occurs(pattern, lines[k])
  {
    var text, head := JoinLines(lines), lines[0];
    if |lines| == 1 {
      assert Occurs(pattern, lines[0]);
    } else {
      NoStraddle(text, pattern, i, |head|);
      if i + |pattern| <= |head| {
        assert OccursAt(head, pattern, i);
      } else {
        assert text[|head| + 1..] == JoinLines(lines[1..]);
        assert OccursAt(JoinLines(lines[1..]), pattern, i - |head| - 1);
        OccursInLine(lines[1..], pattern, i - |head| - 1);
        var k :| 0 <= k < |lines[1..]| && Occurs(pattern, lines[1..][k]);
        assert lines[k + 1] == lines[1..][k];
      }
    }
  }

  lemma {:induction false} LineInJoin(lines: seq<string>, pattern: string, k: nat)
    requires k < |lines| && Occurs(pattern, lines[k])
    ensures Occurs(pattern, JoinLines(lines))
  {
    var text := JoinLines(lines);
    if k == 0 {
      var i :| OccursAt(lines[0], pattern, i);
      assert text[..|lines[0]|] == lines[0];
      assert OccursAt(text, pattern, i);
    } else {
      LineInJoin(lines[1..], pattern, k - 1);
      var i :| OccursAt(JoinLines(lines[1..]), pattern, i);
      assert text[|lines[0]| + 1..] == JoinLines(lines[1..]);
      assert OccursAt(text, pattern, |lines[0]| + 1 + i);
    }
  }

  /** An occurrence of the end marker starting above the last line of the block lies in one of the upper lines. */
  ghost predicate InUpper(indent: string, startMarker: string, endMarker: string, lines: seq<string>) {
    Occurs(endMarker, startMarker) || exists k :: 0 <= k < |lines| && Occurs(endMarker, indent + lines[k])
  }

  lemma InUpperIff(indent: string, startMarker: string, endMarker: string, lines: seq<string>)
    requires '\n' !in endMarker
    ensures InUpper(indent, startMarker, endMarker, lines)
            <==> Occurs(endMarker, JoinLines(Upper(indent, startMarker, lines)))
  {
    var upper := Upper(indent, startMarker, lines);
    if Occurs(endMarker, startMarker) {
      LineInJoin(upper, endMarker, 0);
    }
    forall k | 0 <= k < |lines| && Occurs(endMarker, indent + lines[k]) ensures Occurs(endMarker, JoinLines(upper)) {
      assert upper[k + 1] == indent + lines[k];
      LineInJoin(upper, endMarker, k + 1);
    }
    if Occurs(endMarker, JoinLines(upper)) {
      var i :| OccursAt(JoinLines(upper), endMarker, i);
      OccursInLine(upper, endMarker, i);
      var k :| 0 <= k < |upper| && Occurs(endMarker, upper[k]);
      assert k > 0 ==> upper[k] == indent + lines[k - 1];
    }
  }

  // ----- the rewritten text

  lemma IndexOfIs(text: string, pattern: string, start: nat, i: nat)
    requires start <= i && OccursAt(text, pattern, i)
    requires forall j | start <= j < i :: !OccursAt(text, pattern, j)
    ensures IndexOf(text, pattern, start) == i
  {
  }

  /** Texts that agree up to the end of the first start marker have it at the same place. */
  lemma SameStart(text: string, rewritten: string, pattern: string, i: nat)
    requires IndexOf(text, pattern, 0) == i
    requires i + |pattern| <= |rewritten| && rewritten[..i + |pattern|] == text[..i + |pattern|]
    ensures IndexOf(rewritten, pattern, 0) == i
  {
    assert forall j | 0 <= j < i :: !OccursAt(text, pattern, j);
    SameFirst(text, rewritten, pattern, i);
    IndexOfIs(rewritten, pattern, 0, i);
  }

  lemma SameFirst(text: string, rewritten: string, pattern: string, i: nat)
    requires OccursAt(text, pattern, i) && forall j | 0 <= j < i :: !OccursAt(text, pattern, j)
    requires i + |pattern| <= |rewritten| && rewritten[..i + |pattern|] == text[..i + |pattern|]
    ensures OccursAt(rewritten, pattern, i) && forall j | 0 <= j < i :: !OccursAt(rewritten, pattern, j)
  {
    forall j | 0 <= j <= i ensures OccursAt(rewritten, pattern, j) <==> OccursAt(text, pattern, j) {
      SamePrefixOccurs(text, rewritten, pattern, i + |pattern|, j);
    }
  }

  lemma SamePrefixOccurs(text: string, rewritten: string, pattern: string, n: nat, j: nat)
    requires n <= |text| && n <= |rewritten| && rewritten[..n] == text[..n]
    requires j + |pattern| <= n
    ensures OccursAt(rewritten, pattern, j) <==> OccursAt(text, pattern, j)
  {
    assert rewritten[j..j + |pattern|] == rewritten[..n][j..j + |pattern|];
    assert text[j..j + |pattern|] == text[..n][j..j + |pattern|];
  }

  lemma {:induction false} SameIndent(text: string, rewritten: string, i: nat)
    requires i < |text| && i < |rewritten| && rewritten[..i + 1] == text[..i + 1]
    ensures LineStart(rewritten, i) == LineStart(text, i) && Indent(rewritten, i) == Indent(text, i)
  {
    assert forall j | 0 <= j <= i :: rewritten[j] == rewritten[..i + 1][j] == text[..i + 1][j] == text[j];
    SameLastNewline(text, rewritten, i);
    var l := LineStart(text, i);
    if l <= i {
      assert rewritten[l..i] == rewritten[..i + 1][l..i] == text[..i + 1][l..i] == text[l..i];
    }
  }

  lemma {:induction false} SameLastNewline(text: string, rewritten: string, i: nat)
    requires i < |text| && i < |rewritten|
    requires forall j | 0 <= j <= i :: rewritten[j] == text[j]
    ensures LastNewline(rewritten, i) == LastNewline(text, i)
  {
    if text[i] != '\n' && i > 0 {
      SameLastNewline(text, rewritten, i - 1);
    }
  }

  /** The indent of a start marker: what stands before it on its line. */
  lemma IndentShape(text: string, startMarker: string, startIndex: nat)
    requires startMarker != "" && '\n' !in startMarker && OccursAt(text, startMarker, startIndex)
    ensures '\n' !in Indent(text, startIndex)
    ensures LineStart(text, startIndex) <= startIndex
    ensures text[..LineStart(text, startIndex)] + Indent(text, startIndex) == text[..startIndex]
  {
    assert text[startIndex] == text[startIndex..startIndex + |startMarker|][0] == startMarker[0];
  }

  /** The rewritten text in pieces. */
  function Rewritten(prefix: string, indent: string, startMarker: string, endMarker: string, lines: seq<string>,
                     after: string): string
  {
    prefix + JoinLines(Upper(indent, startMarker, lines)) + "\n" + (indent + endMarker) + Tail(after)
  }

  lemma RewriteShape(before: string, indent: string, prefix: string, startMarker: string, endMarker: string,
                     lines: seq<string>, after: string)
    requires before + indent == prefix
    ensures Spliced(before, Block(indent, startMarker, endMarker, lines), after) ==
            Rewritten(prefix, indent, startMarker, endMarker, lines, after)
  {
    BlockShape(indent, startMarker, endMarker, lines);
    var block, upper := Block(indent, startMarker, endMarker, lines), JoinLines(Upper(indent, startMarker, lines));
    SplicedTail(before, block, after);
    Regroup(before, indent, prefix, upper, "\n", indent + endMarker, block, Tail(after));
  }

  lemma SplicedTail(before: string, replacement: string, after: string)
    ensures Spliced(before, replacement, after) == before + replacement + Tail(after)
  {
    if after == "" {
      assert before + replacement + "" == before + replacement;
    } else {
      Associate(before + replacement, "\n", after);
    }
  }

  lemma Regroup(before: string, indent: string, prefix: string, upper: string, newline: string, last: string,
                block: string, tail: string)
    requires before + indent == prefix && block == indent + (upper + (newline + last))
    ensures before + block + tail == prefix + upper + newline + last + tail
  {
    Associate(before, indent, upper + (newline + last));
    Associate(prefix, upper, newline + last);
    Associate(prefix + upper, newline, last);
  }

  /** What one replacement returns, from the marker positions. */
  lemma ReplaceResult(text: string, startMarker: string, endMarker: string, lines: seq<string>, startIndex: nat,
                      endIndex: nat)
    requires startMarker != "" && '\n' !in startMarker
    requires IndexOf(text, startMarker, 0) == startIndex && IndexOf(text, endMarker, startIndex) == endIndex
    ensures '\n' !in Indent(text, startIndex)
    ensures ReplaceBlockLines(text, startMarker, endMarker, lines) ==
            Ok(Rewritten(text[..startIndex], Indent(text, startIndex), startMarker, endMarker, lines,
                         text[LineEnd(text, endIndex)..]))
  {
    IndentShape(text, startMarker, startIndex);
    var after := text[LineEnd(text, endIndex)..];
    var before, indent := text[..LineStart(text, startIndex)], Indent(text, startIndex);
    RewriteShape(before, indent, text[..startIndex], startMarker, endMarker, lines, after);
    assert ReplaceBlockLines(text, startMarker, endMarker, lines) ==
           Ok(Spliced(before, Block(indent, startMarker, endMarker, lines), after));
  }

  /** `i` is the first place, from `start` on, where the pattern occurs. */
  ghost predicate FirstAt(text: string, pattern: string, start: int, i: int) {
    start <= i && OccursAt(text, pattern, i) && forall h | start <= h < i :: !OccursAt(text, pattern, h)
  }

  /** The line that holds position `i` starts at `k`. */
  ghost predicate LineStartsAt(text: string, i: int, k: int) {
    0 <= k <= i <= |text| && (k == 0 || text[k - 1] == '\n') && '\n' !in text[k..i]
  }

  /** The line that holds position `j` ends before `n`, behind its newline if it has one. */
  ghost predicate LineEndsAt(text: string, j: int, n: int) {
    0 <= j <= n <= |text| && ((n == |text| && '\n' !in text[j..]) || (j < n && FirstNewline(text, j, n - 1)))
  }

  ghost predicate FirstNewline(text: string, j: int, n: int)
    requires 0 <= j
  {
    j <= n < |text| && text[n] == '\n' && '\n' !in text[j..n]
  }

  /** From the first start marker at `i`, whose line starts at `k`, and the first end marker from there at `j`, whose
      line ends at `n`: all lines of the block get what stands before the start marker on its line, and the text before
      and after those lines stays. */
  lemma ReplaceMeans(text: string, startMarker: string, endMarker: string, lines: seq<string>, i: int, j: int, k: int,
                     n: int)
    requires startMarker != "" && '\n' !in startMarker
    requires FirstAt(text, startMarker, 0, i) && FirstAt(text, endMarker, i, j)
    requires LineStartsAt(text, i, k) && LineEndsAt(text, j, n)
    ensures var indent := text[k..i];
            ReplaceBlockLines(text, startMarker, endMarker, lines) ==
            Ok(text[..k] + JoinLines([indent + startMarker] + Indented(indent, lines) + [indent + endMarker])
               + if n == |text| then "" else "\n" + text[n..])
  {
    IndexOfIs(text, startMarker, 0, i);
    IndexOfIs(text, endMarker, i, j);
    StartOfLine(text, startMarker, i, k);
    EndOfLine(text, j, n);
    assert n < |text| ==> text[n..] != "";
    if n < |text| {
      Rejoined(text[..k], Block(text[k..i], startMarker, endMarker, lines), text[n..]);
    } else {
      assert text[n..] == "" && text[..k] + Block(text[k..i], startMarker, endMarker, lines) + ""
          == text[..k] + Block(text[k..i], startMarker, endMarker, lines);
    }
  }

  lemma Rejoined(before: string, replacement: string, after: string)
    requires after != ""
    ensures Spliced(before, replacement, after) == before + replacement + ("\n" + after)
  {
  }

  lemma StartOfLine(text: string, startMarker: string, i: int, k: int)
    requires startMarker != "" && '\n' !in startMarker && OccursAt(text, startMarker, i) && LineStartsAt(text, i, k)
    ensures LineStart(text, i) == k
  {
    assert text[i] == text[i..i + |startMarker|][0] == startMarker[0];
    assert forall h | k <= h < i :: text[h] == text[k..i][h - k];
  }

  lemma EndOfLine(text: string, j: int, n: int)
    requires LineEndsAt(text, j, n)
    ensures LineEnd(text, j) == n
  {
    if n == |text| && '\n' !in text[j..] {
      assert forall h | j <= h < |text| :: text[h] == text[j..][h - j];
      LineEndLast(text, j);
    } else {
      assert forall h | j <= h < n - 1 :: text[h] == text[j..n - 1][h - j];
      LineEndAt(text, j, n - 1);
    }
  }

  /** The replacement fails exactly when there is no start marker, or no end marker from the first start marker on. */
  lemma ReplaceFailsIff(text: string, startMarker: string, endMarker: string, lines: seq<string>)
    ensures ReplaceBlockLines(text, startMarker, endMarker, lines).Ok?
            <==> exists i, j :: FirstAt(text, startMarker, 0, i) && FirstAt(text, endMarker, i, j)
  {
    var i := IndexOf(text, startMarker, 0);
    if i != -1 {
      assert FirstAt(text, startMarker, 0, i);
      var j := IndexOf(text, endMarker, i);
      if j != -1 {
        assert FirstAt(text, endMarker, i, j);
      }
    }
    if i2, j2 :| FirstAt(text, startMarker, 0, i2) && FirstAt(text, endMarker, i2, j2) {
      IndexOfIs(text, startMarker, 0, i2);
      IndexOfIs(text, endMarker, i2, j2);
    }
  }

  // ----- replacing twice

  /** The first newline from `x` on, when `x` is on the line before it. */
  lemma LineEndAt(r: string, x: nat, newline: nat)
    requires x <= newline < |r| && r[newline] == '\n' && forall j | x <= j < newline :: r[j] != '\n'
    ensures LineEnd(r, x) == newline + 1
  {
    NewlineAt(r, newline);
    forall j | x <= j < newline ensures !OccursAt(r, "\n", j) {
      NewlineAt(r, j);
    }
    IndexOfIs(r, "\n", x, newline);
  }

  lemma NewlineAt(r: string, j: nat)
    requires j < |r|
    ensures OccursAt(r, "\n", j) <==> r[j] == '\n'
  {
    assert r[j..j + 1] == [r[j]];
  }

  lemma LineEndLast(r: string, x: nat)
    requires x <= |r| && forall j | x <= j < |r| :: r[j] != '\n'
    ensures LineEnd(r, x) == |r|
  {
    forall j | x <= j < |r| ensures !OccursAt(r, "\n", j) {
      NewlineAt(r, j);
    }
  }

  /** The line after `head` is `line`; what follows that line is `after`. */
  lemma LineEndOfLast(head: string, line: string, after: string, x: nat)
    requires '\n' !in line && |head| < x <= |head| + 1 + |line|
    ensures var r := head + "\n" + line + Tail(after); r[LineEnd(r, x)..] == after
  {
    var r, stop := head + "\n" + line + Tail(after), |head| + 1 + |line|;
    MiddleLine(head, line, Tail(after));
    if after == "" {
      LineEndLast(r, x);
    } else {
      LineEndAt(r, x, stop);
      assert Tail(after)[1..] == after;
    }
  }

  lemma MiddleLine(head: string, line: string, rest: string)
    requires '\n' !in line
    ensures var r, stop := head + "\n" + line + rest, |head| + 1 + |line|;
            && (forall j | |head| < j < stop :: r[j] != '\n')
            && r[|head|] == '\n'
            && (rest != "" ==> r[stop] == rest[0] && r[stop + 1..] == rest[1..])
  {
    var r, stop := head + "\n" + line + rest, |head| + 1 + |line|;
    forall j | |head| < j < stop ensures r[j] != '\n' {
      assert r[j] == line[j - |head| - 1];
    }
    if rest != "" {
      assert r[stop..] == rest;
      assert r[stop + 1..] == r[stop..][1..];
    }
  }

  /** A line end found from a position at or above the newline is no later than that newline. */
  lemma LineEndBefore(r: string, x: nat, newline: nat)
    requires x <= newline < |r| && r[newline] == '\n'
    ensures LineEnd(r, x) <= newline + 1
  {
    NewlineAt(r, newline);
  }

  /** Occurrences that end inside a piece of the text are occurrences in the piece. */
  lemma InPiece(prefix: string, piece: string, r: string, pattern: string, i: int)
    requires prefix + piece <= r && |prefix| <= i && i + |pattern| <= |prefix| + |piece|
    ensures OccursAt(r, pattern, i) <==> OccursAt(piece, pattern, i - |prefix|)
  {
    assert r[..|prefix| + |piece|] == prefix + piece;
    assert r[i..i + |pattern|] == (prefix + piece)[i..i + |pattern|] == piece[i - |prefix|..i - |prefix| + |pattern|];
  }

  /** Where the end marker is found the second time: on the last line of the block, or above it. */
  lemma SecondEnd(prefix: string, upper: string, indent: string, endMarker: string, after: string, r: string)
    requires '\n' !in indent && '\n' !in endMarker && endMarker != ""
    requires r == prefix + upper + "\n" + (indent + endMarker) + Tail(after)
    ensures var e := IndexOf(r, endMarker, |prefix|);
            && |prefix| <= e <= |prefix + upper| + 1 + |indent|
            && (r[LineEnd(r, e)..] == after <==> !Occurs(endMarker, upper))
  {
    var head, line := prefix + upper, indent + endMarker;
    LastEnd(head, indent, endMarker, Tail(after));
    var e := IndexOf(r, endMarker, |prefix|);
    MiddleLine(head, line, Tail(after));
    FoundAbove(prefix, upper, r, endMarker, e);
    if e <= |head| {
      LineEndBefore(r, e, |head|);
      assert |r| == |head| + 1 + |line| + |Tail(after)|;
      assert |Tail(after)| >= |after|;
    } else {
      LineEndOfLast(head, line, after, e);
    }
  }

  lemma LastEnd(head: string, indent: string, endMarker: string, rest: string)
    ensures OccursAt(head + "\n" + (indent + endMarker) + rest, endMarker, |head| + 1 + |indent|)
  {
    var r, start := head + "\n" + (indent + endMarker) + rest, |head| + 1 + |indent|;
    assert r[start..start + |endMarker|] == endMarker;
  }

  lemma FoundAbove(prefix: string, upper: string, r: string, endMarker: string, e: nat)
    requires '\n' !in endMarker && endMarker != "" && IndexOf(r, endMarker, |prefix|) == e
    requires prefix + upper + "\n" <= r
    ensures e <= |prefix + upper| <==> Occurs(endMarker, upper)
  {
    var newline := |prefix + upper|;
    assert r[..newline + 1][newline] == r[newline] == '\n';
    NoStraddle(r, endMarker, e, newline);
    if e <= newline {
      InPiece(prefix, upper, r, endMarker, e);
    }
    if Occurs(endMarker, upper) {
      var i :| OccursAt(upper, endMarker, i);
      InPiece(prefix, upper, r, endMarker, |prefix| + i);
    }
  }

  lemma RewrittenInjective(prefix: string, indent: string, startMarker: string, endMarker: string, lines: seq<string>,
                           a: string, b: string)
    ensures Rewritten(prefix, indent, startMarker, endMarker, lines, a) ==
            Rewritten(prefix, indent, startMarker, endMarker, lines, b)
            <==> a == b
  {
    var head := prefix + JoinLines(Upper(indent, startMarker, lines)) + "\n" + (indent + endMarker);
    assert (head + Tail(a))[|head|..] == Tail(a) && (head + Tail(b))[|head|..] == Tail(b);
    assert a != "" ==> Tail(a)[1..] == a;
    assert b != "" ==> Tail(b)[1..] == b;
  }

  /** Replacing the block again with the same lines succeeds, and it changes nothing if and only if the end marker
      occurs neither in the start marker nor in an indented line. */
  lemma ReplaceTwice(text: string, startMarker: string, endMarker: string, lines: seq<string>)
    requires startMarker != "" && endMarker != "" && '\n' !in startMarker && '\n' !in endMarker
    requires ReplaceBlockLines(text, startMarker, endMarker, lines).Ok?
    ensures var r := ReplaceBlockLines(text, startMarker, endMarker, lines).value;
            var indent := Indent(text, IndexOf(text, startMarker, 0));
            && ReplaceBlockLines(r, startMarker, endMarker, lines).Ok?
            && (ReplaceBlockLines(r, startMarker, endMarker, lines) == Ok(r)
                <==> !InUpper(indent, startMarker, endMarker, lines))
  {
    var startIndex := IndexOf(text, startMarker, 0);
    var endIndex := IndexOf(text, endMarker, startIndex);
    var prefix, indent, after := text[..startIndex], Indent(text, startIndex), text[LineEnd(text, endIndex)..];
    ReplaceResult(text, startMarker, endMarker, lines, startIndex, endIndex);
    var r := Rewritten(prefix, indent, startMarker, endMarker, lines, after);
    RewriteAgain(text, startMarker, endMarker, lines, startIndex, indent, after, r);
  }

  lemma RewriteAgain(text: string, startMarker: string, endMarker: string, lines: seq<string>, startIndex: nat,
                     indent: string, after: string, r: string)
    requires startMarker != "" && endMarker != "" && '\n' !in startMarker && '\n' !in endMarker && '\n' !in indent
    requires IndexOf(text, startMarker, 0) == startIndex && indent == Indent(text, startIndex)
    requires r == Rewritten(text[..startIndex], indent, startMarker, endMarker, lines, after)
    ensures var again := ReplaceBlockLines(r, startMarker, endMarker, lines);
            again.Ok? && (again == Ok(r) <==> !InUpper(indent, startMarker, endMarker, lines))
  {
    var prefix, upper := text[..startIndex], JoinLines(Upper(indent, startMarker, lines));
    SecondEnd(prefix, upper, indent, endMarker, after, r);
    InUpperIff(indent, startMarker, endMarker, lines);
    StartKept(text, startMarker, startIndex, upper, r);
    var again := IndexOf(r, endMarker, startIndex);
    ReplaceResult(r, startMarker, endMarker, lines, startIndex, again);
    RewrittenInjective(prefix, indent, startMarker, endMarker, lines, r[LineEnd(r, again)..], after);
  }

  lemma StartKept(text: string, startMarker: string, startIndex: nat, upper: string, r: string)
    requires startMarker != "" && IndexOf(text, startMarker, 0) == startIndex
    requires startMarker <= upper && text[..startIndex] + upper <= r
    ensures IndexOf(r, startMarker, 0) == startIndex
    ensures r[..startIndex] == text[..startIndex] && Indent(r, startIndex) == Indent(text, startIndex)
  {
    var n := startIndex + |startMarker|;
    assert text[..n] == text[..startIndex] + text[startIndex..n] == text[..startIndex] + startMarker;
    assert r[..n] == (text[..startIndex] + upper)[..n] == text[..startIndex] + startMarker;
    SameStart(text, r, startMarker, startIndex);
    assert r[..startIndex + 1] == r[..n][..startIndex + 1] == text[..n][..startIndex + 1] == text[..startIndex + 1];
    SameIndent(text, r, startIndex);
    assert r[..startIndex] == r[..n][..startIndex] == text[..n][..startIndex];
  }

  predicate Blank(indent: string) {
    forall i | 0 <= i < |indent| :: indent[i] == ' ' || indent[i] == '\t'
  }

  lemma VisibleStart(indent: string, line: string, endMarker: string)
    requires Blank(indent) && endMarker != "" && !Blank(endMarker[..1])
    ensures Occurs(endMarker, indent + line) <==> Occurs(endMarker, line)
  {
    var whole := indent + line;
    if Occurs(endMarker, whole) {
      var i :| OccursAt(whole, endMarker, i);
      assert whole[i] == endMarker[0];
      InPiece(indent, line, whole, endMarker, i);
    }
    if Occurs(endMarker, line) {
      var i :| OccursAt(line, endMarker, i);
      InPiece(indent, line, whole, endMarker, |indent| + i);
    }
  }

  /** With a blank indent and an end marker that starts with a visible character, replacing is idempotent exactly when
      the end marker is absent from the start marker and from the lines. */
  lemma ReplaceIdempotent(text: string, startMarker: string, endMarker: string, lines: seq<string>)
    requires startMarker != "" && endMarker != "" && '\n' !in startMarker && '\n' !in endMarker
    requires ReplaceBlockLines(text, startMarker, endMarker, lines).Ok?
    requires Blank(Indent(text, IndexOf(text, startMarker, 0))) && !Blank(endMarker[..1])
    ensures var once := ReplaceBlockLines(text, startMarker, endMarker, lines);
            ReplaceBlockLines(once.value, startMarker, endMarker, lines) == once
            <==> !Occurs(endMarker, startMarker) && forall k | 0 <= k < |lines| :: !Occurs(endMarker, lines[k])
  {
    var indent := Indent(text, IndexOf(text, startMarker, 0));
    ReplaceTwice(text, startMarker, endMarker, lines);
    forall k | 0 <= k < |lines| ensures Occurs(endMarker, indent + lines[k]) <==> Occurs(endMarker, lines[k]) {
      VisibleStart(indent, lines[k], endMarker);
    }
  }

  /** Nothing before the start marker's line or after the end marker's line changes. */
  lemma ReplaceFrames(text: string, startMarker: string, endMarker: string, lines: seq<string>)
    requires startMarker != "" && '\n' !in startMarker
    requires ReplaceBlockLines(text, startMarker, endMarker, lines).Ok?
    ensures var startIndex := IndexOf(text, startMarker, 0);
            var endIndex := IndexOf(text, endMarker, startIndex);
            var after := text[LineEnd(text, endIndex)..];
            var r := ReplaceBlockLines(text, startMarker, endMarker, lines).value;
            && text[..startIndex] + startMarker <= r
            && |r| >= |after| && r[|r| - |after|..] == after
  {
    var startIndex := IndexOf(text, startMarker, 0);
    var endIndex := IndexOf(text, endMarker, startIndex);
    ReplaceResult(text, startMarker, endMarker, lines, startIndex, endIndex);
    RewrittenFrames(text[..startIndex], Indent(text, startIndex), startMarker, endMarker, lines,
                    text[LineEnd(text, endIndex)..]);
  }

  lemma RewrittenFrames(prefix: string, indent: string, startMarker: string, endMarker: string, lines: seq<string>,
                        after: string)
    ensures var r := Rewritten(prefix, indent, startMarker, endMarker, lines, after);
            prefix + startMarker <= r && |r| >= |after| && r[|r| - |after|..] == after
  {
    var upper := JoinLines(Upper(indent, startMarker, lines));
    var head := prefix + upper + "\n" + (indent + endMarker);
    assert prefix + startMarker <= prefix + upper;
    assert after != "" ==> Tail(after)[1..] == after;
    assert (head + Tail(after))[|head|..] == Tail(after);
  }
}
