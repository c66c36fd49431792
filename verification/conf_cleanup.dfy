/**
 What the configuration file's clean-up makes of a text, and what the cleaned text is like.
 */
module ConfCleanup {
  import opened Subsequences

  type Text = seq<char>

  const MAX_LINE_LEN: nat := 256

  function Min(a: nat, b: nat): nat { if a < b then a else b }

  /** Tabs outside quotes become spaces; nothing moves. `quoted` says whether the text starts inside quotes. */
  function Spaced(s: Text, quoted: bool): (r: Text)
    ensures |r| == |s|
  {
    if s == [] then []
    else
      var q := if s[0] == '\"' then !quoted else quoted;
      [if !q && s[0] == '\t' then ' ' else s[0]] + Spaced(s[1..], q)
  }

  /** The first pass: as `Spaced`, and carriage returns outside quotes are gone. */
  function Untabbed(s: Text, quoted: bool): (r: Text) {
    if s == [] then []
    else
      var q := if s[0] == '\"' then !quoted else quoted;
      if !q && s[0] == '\r' then Untabbed(s[1..], q)
      else [if !q && s[0] == '\t' then ' ' else s[0]] + Untabbed(s[1..], q)
  }

  /** The second pass: no line starts with a space. `start` says whether the text starts a line. */
  function Unindented(s: Text, start: bool): (r: Text) {
    if s == [] then []
    else if start && s[0] == ' ' then Unindented(s[1..], true)
    else [s[0]] + Unindented(s[1..], s[0] == '\n')
  }

  /** Up to the line's end. */
  function LineLength(s: Text): (n: nat)
    ensures n <= |s| && (n < |s| ==> s[n] == '\n')
    ensures forall k :: 0 <= k < n ==> s[k] != '\n'
  {
    if s == [] || s[0] == '\n' then 0 else 1 + LineLength(s[1..])
  }

  /** Up to behind the line's end. */
  function LineEnd(s: Text): (end: nat)
    requires s != []
    ensures 0 < end <= |s|
  {
    if LineLength(s) < |s| then LineLength(s) + 1 else LineLength(s)
  }

  /** What the third pass keeps of the first line. */
  function KeptLine(s: Text): (line: Text)
    requires s != []
  {
    if LineLength(s) == 0 || s[0] == '#' then [] else s[..LineEnd(s)]
  }

  /** The third pass: lines that are empty or start with `#` are gone, with their line ends. */
  function WithoutComments(s: Text): (r: Text)
    decreases |s|
  {
    if s == [] then [] else KeptLine(s) + WithoutComments(s[LineEnd(s)..])
  }

  /** One line of the third pass, without looking further. */
  lemma WithoutCommentsUnfolds(s: Text)
    requires s != []
    ensures WithoutComments(s) == KeptLine(s) + WithoutComments(s[LineEnd(s)..]) && WithoutComments([]) == []
  {
    hide KeptLine, LineEnd;
  }

  function Cleaned(s: Text): (r: Text) { WithoutComments(Unindented(Untabbed(s, false), true)) }

  // ---------- the cleaned text ----------

  predicate StartsLine(s: Text, i: int)
    requires 0 <= i < |s|
  {
    i == 0 || s[i - 1] == '\n'
  }

  /** Every line has something on it and starts with neither a space nor `#`. */
  predicate Clean(s: Text) {
    forall i :: 0 <= i < |s| && StartsLine(s, i) ==> s[i] != ' ' && s[i] != '#' && s[i] != '\n'
  }

  predicate NoIndent(s: Text, start: bool) {
    (start && s != [] ==> s[0] != ' ') && forall i :: 0 < i < |s| && s[i - 1] == '\n' ==> s[i] != ' '
  }

  lemma {:induction false} UnindentedNoIndent(s: Text, start: bool)
    ensures NoIndent(Unindented(s, start), start)
  {
    if s != [] {
      if start && s[0] == ' ' {
        UnindentedNoIndent(s[1..], true);
      } else {
        UnindentedNoIndent(s[1..], s[0] == '\n');
        var r, tail := Unindented(s, start), Unindented(s[1..], s[0] == '\n');
        assert r == [s[0]] + tail;
        forall i | 0 < i < |r| && r[i - 1] == '\n' ensures r[i] != ' ' {
          assert r[i] == tail[i - 1];
          if i > 1 { assert r[i - 1] == tail[(i - 1) - 1]; }
        }
      }
    }
  }

  lemma CleanAppend(a: Text, b: Text)
    requires Clean(a) && Clean(b)
    requires a != [] && b != [] ==> a[|a| - 1] == '\n'
    ensures Clean(a + b)
  {
    var s := a + b;
    forall i | 0 <= i < |s| && StartsLine(s, i) ensures s[i] != ' ' && s[i] != '#' && s[i] != '\n' {
      if i < |a| { assert StartsLine(a, i); } else { assert StartsLine(b, i - |a|); }
    }
  }

  lemma KeptLineClean(s: Text)
    requires s != [] && NoIndent(s, true)
    ensures Clean(KeptLine(s)) && NoIndent(s[LineEnd(s)..], true)
    ensures s[LineEnd(s)..] != [] && KeptLine(s) != [] ==> KeptLine(s)[|KeptLine(s)| - 1] == '\n'
  {
    var n, end := LineLength(s), LineEnd(s);
    var line, rest := KeptLine(s), s[end..];
    if rest != [] { assert rest[0] == s[end] && s[end - 1] == '\n'; }
    forall i | 0 < i < |rest| && rest[i - 1] == '\n' ensures rest[i] != ' ' {
      assert rest[i] == s[i + end] && s[(i + end) - 1] == rest[i - 1];
    }
    forall i | 0 < i < |line| ensures !StartsLine(line, i) { assert line[i - 1] == s[i - 1]; }
  }

  lemma {:induction false} WithoutCommentsClean(s: Text)
    requires NoIndent(s, true)
    ensures Clean(WithoutComments(s))
    decreases |s|
  {
    if s != [] {
      hide KeptLine, LineEnd, NoIndent, Clean, WithoutComments;
      WithoutCommentsUnfolds(s);
      KeptLineClean(s);
      WithoutCommentsClean(s[LineEnd(s)..]);
      if s[LineEnd(s)..] == [] {
        assert KeptLine(s) + [] == KeptLine(s);
      } else {
        CleanAppend(KeptLine(s), WithoutComments(s[LineEnd(s)..]));
      }
    }
  }

  /** Whatever the text, afterwards every line is non-empty and starts with neither a space nor `#`. */
  lemma CleanedIsClean(s: Text)
    ensures Clean(Cleaned(s))
  {
    hide Clean, NoIndent;
    UnindentedNoIndent(Untabbed(s, false), true);
    WithoutCommentsClean(Unindented(Untabbed(s, false), true));
  }

  // ---------- what is kept ----------

  lemma {:induction false} UntabbedKept(s: Text, quoted: bool)
    ensures Subsequence(Untabbed(s, quoted), Spaced(s, quoted))
  {
    var u, v := Untabbed(s, quoted), Spaced(s, quoted);
    if s == [] {
      Itself(v);
    } else {
      var q := if s[0] == '\"' then !quoted else quoted;
      UntabbedKept(s[1..], q);
      assert v[1..] == Spaced(s[1..], q);
      if !(!q && s[0] == '\r') { assert u[1..] == Untabbed(s[1..], q); }
      HeadPicks(u, v);
    }
  }

  lemma {:induction false} UnindentedKept(s: Text, start: bool)
    ensures Subsequence(Unindented(s, start), s)
  {
    var u := Unindented(s, start);
    if s == [] {
      Itself(s);
    } else if start && s[0] == ' ' {
      UnindentedKept(s[1..], true);
      HeadPicks(u, s);
    } else {
      UnindentedKept(s[1..], s[0] == '\n');
      assert u[1..] == Unindented(s[1..], s[0] == '\n');
      HeadPicks(u, s);
    }
  }

  lemma SubsequenceAppend(a: Text, s: Text, b: Text, t: Text)
    requires Subsequence(a, s) && Subsequence(b, t)
    ensures Subsequence(a + b, s + t)
  {
    var f :| Picks(a, s, f);
    var g :| Picks(b, t, g);
    assert Picks(a + b, s + t, f + seq(|g|, i requires 0 <= i < |g| => g[i] + |s|));
  }

  lemma KeptLineKept(s: Text)
    requires s != []
    ensures Subsequence(KeptLine(s), s[..LineEnd(s)])
  {
    hide LineLength, Subsequence;
    Itself(s[..LineEnd(s)]);
    Nothing(s[..LineEnd(s)]);
  }

  lemma {:induction false} WithoutCommentsKept(s: Text)
    ensures Subsequence(WithoutComments(s), s)
    decreases |s|
  {
    hide Subsequence;
    if s == [] {
      Itself(s);
    } else {
      hide WithoutComments, KeptLine, LineEnd;
      WithoutCommentsUnfolds(s);
      KeptLineKept(s);
      WithoutCommentsKept(s[LineEnd(s)..]);
      SubsequenceAppend(KeptLine(s), s[..LineEnd(s)], WithoutComments(s[LineEnd(s)..]), s[LineEnd(s)..]);
      TakeAndDrop(s, LineEnd(s));
    }
  }

  /** The cleaned text is picked, in order, out of the input with the tabs outside quotes made spaces. */
  lemma CleanedIsKept(s: Text)
    ensures Subsequence(Cleaned(s), Spaced(s, false))
  {
    hide Subsequence;
    var a := Untabbed(s, false);
    var b := Unindented(a, true);
    UntabbedKept(s, false);
    UnindentedKept(a, true);
    WithoutCommentsKept(b);
    Transitive(b, a, Spaced(s, false));
    Transitive(Cleaned(s), b, Spaced(s, false));
  }

  // ---------- lines stay short ----------

  /** Every terminated line is shorter than a line buffer, counting `k` characters before the text. */
  predicate ShortLines(s: Text, k: nat) {
    if s == [] then true
    else if s[0] == '\n' then k < MAX_LINE_LEN && ShortLines(s[1..], 0)
    else ShortLines(s[1..], k + 1)
  }

  lemma {:induction false} ShorterLines(s: Text, k: nat, j: nat)
    requires ShortLines(s, k) && j <= k
    ensures ShortLines(s, j)
  {
    if s != [] && s[0] != '\n' { ShorterLines(s[1..], k + 1, j + 1); }
  }

  lemma {:induction false} UntabbedShort(s: Text, quoted: bool, k: nat)
    requires ShortLines(s, k)
    ensures ShortLines(Untabbed(s, quoted), k)
  {
    if s != [] {
      var q := if s[0] == '\"' then !quoted else quoted;
      if s[0] == '\n' {
        UntabbedShort(s[1..], q, 0);
      } else if !q && s[0] == '\r' {
        ShorterLines(s[1..], k + 1, k);
        UntabbedShort(s[1..], q, k);
      } else {
        UntabbedShort(s[1..], q, k + 1);
      }
      assert !(!q && s[0] == '\r') ==> Untabbed(s, quoted)[1..] == Untabbed(s[1..], q);
    }
  }

  lemma {:induction false} UnindentedShort(s: Text, start: bool, k: nat)
    requires ShortLines(s, k)
    ensures ShortLines(Unindented(s, start), k)
  {
    if s != [] {
      if start && s[0] == ' ' {
        ShorterLines(s[1..], k + 1, k);
        UnindentedShort(s[1..], true, k);
      } else {
        UnindentedShort(s[1..], s[0] == '\n', if s[0] == '\n' then 0 else k + 1);
        assert Unindented(s, start)[1..] == Unindented(s[1..], s[0] == '\n');
      }
    }
  }

  /** Lines are short if the first is and those behind it are. */
  lemma {:induction false} ShortByLine(s: Text, k: nat)
    ensures ShortLines(s, k)
            <==> (LineLength(s) < |s| ==> k + LineLength(s) < MAX_LINE_LEN && ShortLines(s[LineLength(s) + 1..], 0))
  {
    if s != [] && s[0] != '\n' {
      ShortByLine(s[1..], k + 1);
      if LineLength(s) < |s| { assert s[1..][LineLength(s[1..]) + 1..] == s[LineLength(s) + 1..]; }
    }
  }

  // ---------- what must be kept, character by character ----------

  function Quotes(s: Text): nat { if s == [] then 0 else (if s[0] == '\"' then 1 else 0) + Quotes(s[1..]) }

  /** Index `i` is outside quotes: an even number of them stands before, or odd if the text starts inside. */
  predicate Outside(s: Text, quoted: bool, i: nat)
    requires i <= |s|
  {
    (Quotes(s[..i]) % 2 == 1) == quoted
  }

  lemma OutsideShifts(s: Text, quoted: bool, i: nat)
    requires 0 < i <= |s|
    ensures Outside(s, quoted, i) <==> Outside(s[1..], if s[0] == '\"' then !quoted else quoted, i - 1)
  {
    assert s[..i][0] == s[0] && s[..i][1..] == s[1..][..i - 1];
  }

  /** A tab outside quotes becomes a space; every other character stays what it is. */
  lemma {:induction false} SpacedAt(s: Text, quoted: bool, i: nat)
    requires i < |s|
    ensures Spaced(s, quoted)[i] == if s[i] == '\t' && Outside(s, quoted, i) then ' ' else s[i]
  {
    var q := if s[0] == '\"' then !quoted else quoted;
    if i > 0 {
      SpacedAt(s[1..], q, i - 1);
      OutsideShifts(s, quoted, i);
    } else {
      assert s[..0] == [];
    }
  }

  predicate IsOuterReturn(s: Text, quoted: bool, i: nat)
    requires i < |s|
  {
    s[i] == '\r' && Outside(s, quoted, i)
  }

  /** The first pass keeps every character but the carriage returns outside quotes, in order. */
  lemma {:induction false} UntabbedKeepsRest(s: Text, quoted: bool) returns (f: seq<nat>)
    ensures Picks(Untabbed(s, quoted), Spaced(s, quoted), f)
    ensures forall i :: 0 <= i < |s| ==> (i in f <==> !IsOuterReturn(s, quoted, i))
  {
    f := [];
    if s != [] {
      var q := if s[0] == '\"' then !quoted else quoted;
      var g := UntabbedKeepsRest(s[1..], q);
      assert s[..0] == [];
      var gone := !q && s[0] == '\r';
      assert gone <==> IsOuterReturn(s, quoted, 0);
      f := Shifted(g, gone);
      ShiftedPicks(Untabbed(s[1..], q), Spaced(s[1..], q), g, Spaced(s, quoted), gone);
      forall i | 0 <= i < |s| ensures i in f <==> !IsOuterReturn(s, quoted, i) {
        ShiftedHas(g, gone, i);
        if i > 0 {
          OutsideShifts(s, quoted, i);
          assert IsOuterReturn(s, quoted, i) <==> IsOuterReturn(s[1..], q, i - 1);
        }
      }
    }
  }

  /** The places one further on, and behind place 0 unless that is gone. */
  function Shifted(g: seq<nat>, gone: bool): (f: seq<nat>) {
    (if gone then [] else [0]) + seq(|g|, k requires 0 <= k < |g| => g[k] + 1)
  }

  lemma ShiftedHas(g: seq<nat>, gone: bool, i: nat)
    ensures i in Shifted(g, gone) <==> if i == 0 then !gone else i - 1 in g
  {
    var up := seq(|g|, k requires 0 <= k < |g| => g[k] + 1);
    if i > 0 && i - 1 in g {
      var k :| 0 <= k < |g| && g[k] == i - 1;
      assert up[k] == i;
    }
    assert !gone ==> Shifted(g, gone)[0] == 0;
  }

  lemma ShiftedPicks(pattern: Text, text: Text, g: seq<nat>, whole: Text, gone: bool)
    requires Picks(pattern, text, g) && whole != [] && whole[1..] == text
    ensures Picks(if gone then pattern else [whole[0]] + pattern, whole, Shifted(g, gone))
  {
    var f := Shifted(g, gone);
    var off := if gone then 0 else 1;
    forall k | off <= k < |f| ensures f[k] == g[k - off] + 1 && whole[f[k]] == pattern[k - off] {
      assert whole[g[k - off] + 1] == text[g[k - off]];
    }
  }

  // ---------- what must be kept, line by line ----------

  /** Unfoldings, away from the start of a line. */
  lemma UnindentedUnfolds(s: Text)
    requires s != []
    ensures Unindented(s, false) == [s[0]] + Unindented(s[1..], s[0] == '\n')
    ensures s[0] != ' ' ==> Unindented(s, true) == Unindented(s, false)
    ensures LineLength(s) == if s[0] == '\n' then 0 else 1 + LineLength(s[1..])
  {
  }

  lemma UnindentedLine(s: Text)
    requires s != [] && s[0] != ' '
    ensures var n := LineLength(s);
      if n < |s| then Unindented(s, true) == s[..n + 1] + Unindented(s[n + 1..], true) else Unindented(s, true) == s
  {
    hide Unindented, LineLength;
    UnindentedUnfolds(s);
    UnindentedRest(s);
  }

  lemma {:induction false} UnindentedRest(s: Text)
    ensures var n := LineLength(s);
      if n < |s| then Unindented(s, false) == s[..n + 1] + Unindented(s[n + 1..], true) else Unindented(s, false) == s
  {
    if s != [] {
      hide Unindented, LineLength;
      UnindentedUnfolds(s);
      if s[0] != '\n' {
        UnindentedRest(s[1..]);
        RestOfLine(s, LineLength(s[1..]));
      }
    }
  }

  lemma RestOfLine(s: Text, n: nat)
    requires s != [] && n <= |s| - 1
    ensures [s[0]] + s[1..] == s
    ensures n < |s| - 1 ==> [s[0]] + s[1..][..n + 1] == s[..n + 2] && s[1..][n + 1..] == s[n + 2..]
  {
  }

  predicate EndsLine(s: Text) { s == [] || s[|s| - 1] == '\n' }

  lemma {:induction false} UnindentedAppend(a: Text, b: Text, start: bool)
    requires a != [] && EndsLine(a)
    ensures Unindented(a + b, start) == Unindented(a, start) + Unindented(b, true)
    ensures Unindented(a, start) != [] && EndsLine(Unindented(a, start))
  {
    assert (a + b)[1..] == a[1..] + b;
    if |a| > 1 {
      UnindentedAppend(a[1..], b, if start && a[0] == ' ' then true else a[0] == '\n');
    } else {
      assert a[1..] + b == b;
    }
  }

  lemma {:induction false} LineLengthAppend(a: Text, b: Text)
    requires LineLength(a) < |a|
    ensures LineLength(a + b) == LineLength(a)
  {
    assert (a + b)[1..] == a[1..] + b;
    if a[0] != '\n' { LineLengthAppend(a[1..], b); }
  }

  lemma EndsLineHasEnd(a: Text)
    requires a != [] && EndsLine(a)
    ensures LineLength(a) < |a| && EndsLine(a[LineEnd(a)..])
  {
    var last := |a| - 1;
    assert a[last] == '\n';
  }

  lemma FirstLineAppend(a: Text, b: Text)
    requires a != [] && EndsLine(a)
    ensures LineEnd(a + b) == LineEnd(a) && KeptLine(a + b) == KeptLine(a) && EndsLine(a[LineEnd(a)..])
    ensures (a + b)[LineEnd(a)..] == a[LineEnd(a)..] + b
  {
    hide LineLength;
    EndsLineHasEnd(a);
    LineLengthAppend(a, b);
  }

  lemma {:induction false} WithoutCommentsAppend(a: Text, b: Text)
    requires EndsLine(a)
    ensures WithoutComments(a + b) == WithoutComments(a) + WithoutComments(b)
    decreases |a|
  {
    hide WithoutComments, KeptLine, LineEnd, EndsLine;
    if a == [] {
      NothingKept();
      EmptyInFront(b);
      EmptyInFront(WithoutComments(b));
    } else {
      AppendOneLine(a, b);
      WithoutCommentsAppend(a[LineEnd(a)..], b);
      Chain(WithoutComments(a + b), WithoutComments(a[LineEnd(a)..] + b), WithoutComments(a), KeptLine(a),
            WithoutComments(a[LineEnd(a)..]), WithoutComments(b));
    }
  }

  lemma AppendOneLine(a: Text, b: Text)
    requires a != [] && EndsLine(a)
    ensures EndsLine(a[LineEnd(a)..])
    ensures WithoutComments(a) == KeptLine(a) + WithoutComments(a[LineEnd(a)..])
    ensures WithoutComments(a + b) == KeptLine(a) + WithoutComments(a[LineEnd(a)..] + b)
  {
    hide WithoutComments, KeptLine, LineEnd, EndsLine;
    FirstLineAppend(a, b);
    WithoutCommentsUnfolds(a);
    WithoutCommentsUnfolds(a + b);
  }

  lemma NothingKept()
    ensures WithoutComments([]) == []
  {
  }

  lemma EmptyInFront(s: Text)
    ensures [] + s == s
  {
  }

  lemma Chain(whole: Text, more: Text, front: Text, line: Text, rest: Text, b: Text)
    requires whole == line + more && more == rest + b && front == line + rest
    ensures whole == front + b
  {
  }

  lemma Together(a: Text, b: Text, c: Text)
    ensures a + (b + c) == a + b + c
  {
  }

  /** The second and third pass together. */
  function CleanedLines(u: Text): (r: Text) { WithoutComments(Unindented(u, true)) }

  lemma CleanedLinesAppend(a: Text, b: Text)
    requires EndsLine(a)
    ensures CleanedLines(a + b) == CleanedLines(a) + CleanedLines(b)
  {
    hide Unindented, WithoutComments;
    if a == [] {
      assert a + b == b;
      NothingCleaned();
    } else {
      UnindentedAppend(a, b, true);
      WithoutCommentsAppend(Unindented(a, true), Unindented(b, true));
    }
  }

  lemma NothingCleaned()
    ensures CleanedLines([]) == []
  {
  }

  function Spaces(k: nat): (s: Text)
    ensures |s| == k
  {
    seq(k, _ => ' ')
  }

  lemma {:induction false} SpacesGo(k: nat, rest: Text)
    ensures Unindented(Spaces(k) + rest, true) == Unindented(rest, true)
  {
    if k > 0 {
      assert (Spaces(k) + rest)[0] == ' ' && (Spaces(k) + rest)[1..] == Spaces(k - 1) + rest;
      SpacesGo(k - 1, rest);
    } else {
      assert Spaces(0) + rest == rest;
    }
  }

  /** A line without its indentation; `ended` says whether a line end follows. */
  function LineText(body: Text, ended: bool): (line: Text) { body + if ended then ['\n'] else [] }

  lemma {:induction false} LineTextLength(body: Text, ended: bool)
    requires '\n' !in body
    ensures LineLength(LineText(body, ended)) == |body|
  {
    if body != [] {
      assert LineText(body, ended)[0] == body[0] && LineText(body, ended)[1..] == LineText(body[1..], ended);
      assert body[0] in body;
      LineTextLength(body[1..], ended);
    }
  }

  /** One line: kept in full behind its leading spaces, unless it is blank or a comment. */
  lemma OneLine(k: nat, body: Text, ended: bool)
    requires '\n' !in body && (body != [] ==> body[0] != ' ')
    ensures CleanedLines(Spaces(k) + LineText(body, ended))
            == if body == [] || body[0] == '#' then [] else LineText(body, ended)
  {
    hide Unindented, LineLength;
    var line := LineText(body, ended);
    SpacesGo(k, line);
    LineTextLength(body, ended);
    if line == [] {
      NothingCleaned();
    } else {
      assert line[0] == if body == [] then '\n' else body[0];
      UnindentedLine(line);
      assert ended ==> line[|body| + 1..] == [] && line[..|body| + 1] == line;
      assert Unindented(line, true) == line by { NothingUnindented(); }
      OneLineComments(line);
    }
  }

  lemma NothingUnindented()
    ensures Unindented([], true) == []
  {
  }

  lemma OneLineComments(line: Text)
    requires line != [] && |line| <= LineLength(line) + 1
    ensures WithoutComments(line) == if LineLength(line) == 0 || line[0] == '#' then [] else line
  {
    hide LineLength, WithoutComments;
    WithoutCommentsUnfolds(line);
    assert line[LineEnd(line)..] == [] && line[..LineEnd(line)] == line;
  }

  /**
   Wherever a line stands between the lines before and after it, those are cleaned as if it
   were not there, and it is kept in full, unless it is blank or a comment.
   */
  lemma LineByLine(before: Text, k: nat, body: Text, ended: bool, behind: Text)
    requires EndsLine(before) && (!ended ==> behind == [])
    requires '\n' !in body && (body != [] ==> body[0] != ' ')
    ensures CleanedLines(before + (Spaces(k) + LineText(body, ended)) + behind)
            == CleanedLines(before) + (if body == [] || body[0] == '#' then [] else LineText(body, ended))
               + CleanedLines(behind)
  {
    hide CleanedLines;
    var line := Spaces(k) + LineText(body, ended);
    OneLine(k, body, ended);
    assert before + line + behind == before + (line + behind);
    CleanedLinesAppend(before, line + behind);
    if ended {
      CleanedLinesAppend(line, behind);
    } else {
      assert line + behind == line;
      NothingCleaned();
    }
  }

  // ---------- clean texts stay as they are ----------

  lemma {:induction false} UnindentedSame(s: Text, start: bool)
    requires NoIndent(s, start)
    ensures Unindented(s, start) == s
  {
    if s != [] {
      forall i | 0 < i < |s[1..]| && s[1..][i - 1] == '\n' ensures s[1..][i] != ' ' { assert s[(i + 1) - 1] == '\n'; }
      assert |s| > 1 && s[0] == '\n' ==> s[1] != ' ';
      UnindentedSame(s[1..], s[0] == '\n');
    }
  }

  lemma CleanLineKept(s: Text)
    requires Clean(s) && s != []
    ensures KeptLine(s) == s[..LineEnd(s)] && Clean(s[LineEnd(s)..])
  {
    var end := LineEnd(s);
    var rest := s[end..];
    assert StartsLine(s, 0);
    forall i | 0 <= i < |rest| && StartsLine(rest, i) ensures rest[i] != ' ' && rest[i] != '#' && rest[i] != '\n' {
      assert rest[i] == s[end + i] && StartsLine(s, end + i);
    }
  }

  lemma TakeAndDrop(s: Text, end: nat)
    requires end <= |s|
    ensures s[..end] + s[end..] == s
  {
  }

  lemma {:induction false} WithoutCommentsSame(s: Text)
    requires Clean(s)
    ensures WithoutComments(s) == s
    decreases |s|
  {
    if s != [] {
      hide WithoutComments, KeptLine, LineEnd, Clean;
      WithoutCommentsUnfolds(s);
      CleanLineKept(s);
      WithoutCommentsSame(s[LineEnd(s)..]);
      TakeAndDrop(s, LineEnd(s));
    }
  }

  /** A clean text with no tab and no carriage return outside quotes is its own cleaned text. */
  lemma CleanedSame(s: Text)
    requires Clean(s)
    requires forall i :: 0 <= i < |s| && (s[i] == '\t' || s[i] == '\r') ==> !Outside(s, false, i)
    ensures Cleaned(s) == s
  {
    UntabbedSame(s, false);
    forall i | 0 <= i < |s| && (i > 0 ==> s[i - 1] == '\n') ensures s[i] != ' ' { assert StartsLine(s, i); }
    UnindentedSame(s, true);
    WithoutCommentsSame(s);
  }

  lemma {:induction false} UntabbedSame(s: Text, quoted: bool)
    requires forall i :: 0 <= i < |s| && (s[i] == '\t' || s[i] == '\r') ==> !Outside(s, quoted, i)
    ensures Untabbed(s, quoted) == s
  {
    if s != [] {
      var q := if s[0] == '\"' then !quoted else quoted;
      assert s[..0] == [];
      forall i | 0 <= i < |s[1..]| && (s[1..][i] == '\t' || s[1..][i] == '\r') ensures !Outside(s[1..], q, i) {
        OutsideShifts(s, quoted, i + 1);
        assert s[i + 1] == s[1..][i];
      }
      UntabbedSame(s[1..], q);
    }
  }

  /** Without carriage returns outside quotes the first pass only makes spaces of tabs. */
  lemma {:induction false} UntabbedIsSpaced(s: Text, quoted: bool)
    requires forall i :: 0 <= i < |s| ==> !IsOuterReturn(s, quoted, i)
    ensures Untabbed(s, quoted) == Spaced(s, quoted)
  {
    if s != [] {
      var q := if s[0] == '\"' then !quoted else quoted;
      assert s[..0] == [] && !IsOuterReturn(s, quoted, 0);
      forall i | 0 <= i < |s[1..]| ensures !IsOuterReturn(s[1..], q, i) {
        OutsideShifts(s, quoted, i + 1);
        assert !IsOuterReturn(s, quoted, i + 1);
      }
      UntabbedIsSpaced(s[1..], q);
    }
  }
}
