/**
 The configuration clean-up in place: characters move inside one buffer while a cursor walks it,
 stepping back over what has been removed.
 */
module ConfParser {
  import opened ConfCleanup

  const NUL: char := 0 as char

  /** The buffer holds the text `t`, up to its terminator. */
  ghost predicate Holds(buf: array<char>, t: Text)
    reads buf
  {
    |t| < buf.Length && buf[..|t|] == t && buf[|t|] == NUL && NUL !in t
  }

  lemma TerminatorOnlyAtEnd(buf: array<char>, k: nat, t: Text)
    requires Holds(buf, t) && k <= |t|
    ensures buf[k] == NUL <==> k == |t|
  {
    if k < |t| { assert buf[..|t|][k] == t[k] && t[k] in t; }
  }

  /** The character behind `done` is the first of `rest`. */
  lemma HeadCharacter(buf: array<char>, done: Text, rest: Text)
    requires Holds(buf, done + rest) && rest != []
    ensures |done| < buf.Length && buf[|done|] == rest[0]
  {
    assert buf[..|done + rest|][|done|] == (done + rest)[|done|];
  }

  method StrLen(buf: array<char>, base: nat, ghost t: Text) returns (n: nat)
    requires Holds(buf, t) && base <= |t|
    ensures n == |t| - base
  {
    n := 0;
    while buf[base + n] != NUL
      invariant base + n <= |t|
      decreases |t| - n
    {
      n := n + 1;
    }
    TerminatorOnlyAtEnd(buf, base + n, t);
  }

  /** Index of the line's end at or after `from`, or -1. */
  method StrChrNewline(buf: array<char>, from: nat, ghost t: Text) returns (at: int)
    requires Holds(buf, t) && from <= |t|
    ensures at == if LineLength(t[from..]) < |t| - from then from + LineLength(t[from..]) else -1
  {
    at := from;
    while buf[at] != NUL
      invariant from <= at <= |t|
      invariant LineLength(t[from..]) == at - from + LineLength(t[at..])
      decreases |t| - at
    {
      assert at < |t| && t[at] == buf[at];
      assert t[at..][1..] == t[at + 1..];
      if buf[at] == '\n' { return; }
      at := at + 1;
    }
    TerminatorOnlyAtEnd(buf, at, t);
    at := -1;
  }

  /**
   Removes `len` characters at `startpos` of the string at `base`, by way of a copy. One more
   than there are removes nothing; past that the length to copy is negative: an overrun.
   */
  method RemoveData(buf: array<char>, base: nat, startpos: nat, len: nat, ghost t: Text)
    returns (overrun: bool, r: int)
    requires Holds(buf, t) && base <= |t|
    modifies buf
    ensures r == if startpos >= |t| - base || len > |t| - base then -1 else 0
    ensures overrun <==> r == 0 && startpos + len > |t| - base + 1
    ensures !overrun ==>
      Holds(buf, if r == 0 && startpos + len <= |t| - base then t[..base + startpos] + t[base + startpos + len..]
                 else t)
  {
    var blen := StrLen(buf, base, t);
    if startpos >= blen || len > blen { return false, -1; }
    if startpos + len > blen + 1 { return true, 0; }
    var tmp := new char[blen + 1](_ => NUL);
    forall k | 0 <= k < blen { tmp[k] := buf[base + k]; }
    var count := blen - len - startpos + 1;
    if count > 0 {
      CopiedTail(buf, base, tmp, startpos + len, t);
      CloseGap(buf, base + startpos, len, tmp, startpos + len, count, t);
    }
    overrun, r := false, 0;
  }

  lemma CopiedTail(buf: array<char>, base: nat, tmp: array<char>, from: nat, t: Text)
    requires Holds(buf, t) && base + from <= |t| && tmp.Length == |t| - base + 1 && tmp[|t| - base] == NUL
    requires forall k :: 0 <= k < |t| - base ==> tmp[k] == buf[base + k]
    ensures tmp[from..] == t[base + from..] + [NUL]
  {
    forall k | from <= k < |t| - base ensures tmp[k] == t[base + k] { assert buf[..|t|][base + k] == t[base + k]; }
  }

  /** Copies the tail and its terminator over the `len` characters at `at`. */
  method CloseGap(buf: array<char>, at: nat, len: nat, tmp: array<char>, from: nat, count: nat, ghost t: Text)
    requires Holds(buf, t) && at + len <= |t| && count == |t| - at - len + 1 && buf != tmp
    requires from + count == tmp.Length && tmp[from..] == t[at + len..] + [NUL]
    modifies buf
    ensures Holds(buf, t[..at] + t[at + len..])
  {
    ghost var tail := tmp[from..];
    forall k | 0 <= k < count { buf[at + k] := tmp[from + k]; }
    forall k | 0 <= k < count ensures buf[at + k] == tail[k] {}
    assert buf[..at] == t[..at];
    assert buf[at..at + count - 1] == t[at + len..];
    assert buf[..at + count - 1] == t[..at] + t[at + len..];
  }

  /**
   The line's length. A line that ends is copied; one as long as the line buffer or longer
   leaves no room there for its terminator: an overrun.
   */
  method ReadLine(buf: array<char>, base: nat, line: array<char>, ghost t: Text) returns (overrun: bool, len: nat)
    requires Holds(buf, t) && base <= |t| && line.Length == MAX_LINE_LEN && line != buf
    modifies line
    ensures overrun <==> MAX_LINE_LEN <= LineLength(t[base..]) < |t| - base
    ensures !overrun ==> len == LineLength(t[base..]) && (len < |t| - base ==> Holds(line, t[base..base + len]))
  {
    var at := StrChrNewline(buf, base, t);
    if at < 0 {
      len := StrLen(buf, base, t);
      return false, len;
    }
    len := Min(at - base, MAX_LINE_LEN);
    ghost var copied := t[base..base + len];
    forall k | 0 <= k < len { line[k] := buf[base + k]; }
    if len == MAX_LINE_LEN { return true, len; }
    line[len] := NUL;
    forall k | 0 <= k < len ensures line[k] == copied[k] { assert copied[k] == t[base + k]; }
    overrun := false;
  }

  // ---------- one pass over what is left ----------

  lemma Splice(done: Text, rest: Text, len: nat)
    requires len <= |rest|
    ensures (done + rest)[..|done|] + (done + rest)[|done| + len..] == done + rest[len..]
  {
  }

  /** Removes the first `len` characters of what is left at the cursor. */
  method RemoveHere(buf: array<char>, ptr: nat, len: nat, ghost done: Text, ghost rest: Text)
    requires Holds(buf, done + rest) && ptr == |done| && len <= |rest| && rest != []
    modifies buf
    ensures Holds(buf, done + rest[len..])
  {
    hide Holds;
    Splice(done, rest, len);
    var _, _ := RemoveData(buf, ptr, 0, len, done + rest);
  }

  method Put(buf: array<char>, ptr: nat, c: char, ghost done: Text, ghost rest: Text)
    requires Holds(buf, done + rest) && ptr == |done| && rest != [] && c != NUL
    modifies buf
    ensures Holds(buf, done + [c] + rest[1..])
  {
    buf[ptr] := c;
    ghost var now := done + [c] + rest[1..];
    assert forall k :: 0 <= k < |now| ==> now[k] == if k == ptr then c else (done + rest)[k];
  }

  lemma Advance(done: Text, rest: Text, n: nat)
    requires n <= |rest|
    ensures done + rest[..n] + rest[n..] == done + rest
    ensures rest != [] ==> done + [rest[0]] + rest[1..] == done + rest
  {
  }

  method RemoveTabs(buf: array<char>, ghost t: Text) returns (ghost u: Text)
    requires Holds(buf, t)
    modifies buf
    ensures u == Untabbed(t, false) && Holds(buf, u)
  {
    hide Holds;
    var quoted := false;
    var i := 0;
    ghost var done, rest: Text := [], t;
    assert [] + t == t;
    var len := StrLen(buf, 0, t);
    while i < len
      invariant i == |done| && len == |done + rest| && Holds(buf, done + rest)
      invariant Untabbed(t, false) == done + Untabbed(rest, quoted)
      decreases |rest|
    {
      HeadCharacter(buf, done, rest);
      ghost var tail := rest[1..];
      if buf[i] == '\"' { quoted := !quoted; }
      if !quoted && buf[i] == '\r' {
        RemoveHere(buf, i, 1, done, rest);
        i := i - 1;
      } else {
        ghost var c := if !quoted && rest[0] == '\t' then ' ' else rest[0];
        Together(done, [c], Untabbed(tail, quoted));
        Advance(done, rest, 1);
        if !quoted && buf[i] == '\t' { Put(buf, i, ' ', done, rest); }
        done := done + [c];
      }
      rest := tail;
      i := i + 1;
      len := StrLen(buf, 0, done + rest);
    }
    u := done;
    assert done + [] == done;
  }

  method RemoveLeadingSpaces(buf: array<char>, ghost t: Text) returns (ghost u: Text)
    requires Holds(buf, t)
    modifies buf
    ensures u == Unindented(t, true) && Holds(buf, u)
  {
    hide Holds, LineLength;
    var ptr := 0;
    ghost var done, rest: Text := [], t;
    assert [] + t == t;
    var len := StrLen(buf, 0, t);
    while ptr < len
      invariant ptr == |done| && len == |done + rest| && Holds(buf, done + rest)
      invariant Unindented(t, true) == done + Unindented(rest, true)
      decreases |rest|
    {
      HeadCharacter(buf, done, rest);
      if buf[ptr] == ' ' {
        RemoveHere(buf, ptr, 1, done, rest);
        rest := rest[1..];
        ptr := ptr - 1;
      } else {
        UnindentedLine(rest);
        assert (done + rest)[ptr..] == rest;
        var at := StrChrNewline(buf, ptr, done + rest);
        if at < 0 { return done + rest; }
        ghost var n := at + 1 - ptr;
        Together(done, rest[..n], Unindented(rest[n..], true));
        Advance(done, rest, n);
        done, rest := done + rest[..n], rest[n..];
        ptr := at;
      }
      ptr := ptr + 1;
      len := StrLen(buf, 0, done + rest);
    }
    u := done;
    assert done + [] == done;
  }

  /** Behind what one turn over a line keeps, what is left, and whether its lines are short. */
  lemma CommentsLine(s: Text)
    requires s != [] && !(MAX_LINE_LEN <= LineLength(s) < |s|)
    ensures var n := LineLength(s);
      if n == 0 then WithoutComments(s) == WithoutComments(s[1..]) && ShortLines(s, 0) == ShortLines(s[1..], 0)
      else if s[0] == '#' then
        WithoutComments(s) == WithoutComments(s[n..]) && ShortLines(s, 0) == ShortLines(s[n..], 0)
      else
        var end := if n < |s| then n + 1 else n;
        WithoutComments(s) == s[..end] + WithoutComments(s[end..]) && ShortLines(s, 0) == ShortLines(s[end..], 0)
  {
    hide ShortLines, WithoutComments, LineLength;
    var n := LineLength(s);
    WithoutCommentsUnfolds(s);
    ShortByLine(s, 0);
    if n == |s| {
      assert s[n..] == [];
      NothingLeft();
    } else if s[0] == '#' {
      CommentGone(s);
    }
  }

  lemma LongLine(s: Text)
    requires MAX_LINE_LEN <= LineLength(s) < |s|
    ensures !ShortLines(s, 0)
  {
    ShortByLine(s, 0);
  }

  method RemoveComments(buf: array<char>, ghost t: Text) returns (overrun: bool, ghost u: Text)
    requires Holds(buf, t)
    modifies buf
    ensures overrun <==> !ShortLines(t, 0)
    ensures !overrun ==> u == WithoutComments(t) && Holds(buf, u)
  {
    hide Holds, LineLength, ShortLines, WithoutComments;
    overrun, u := false, t;
    var line := new char[MAX_LINE_LEN];
    var ptr := 0;
    ghost var done, rest: Text := [], t;
    assert [] + t == t;
    var size := StrLen(buf, 0, t);
    while ptr < size
      invariant ptr == |done| || (rest == [] && ptr == |done| + 1)
      invariant size == |done + rest| && Holds(buf, done + rest)
      invariant ShortLines(t, 0) == ShortLines(rest, 0) && WithoutComments(t) == done + WithoutComments(rest)
      decreases |rest|
    {
      HeadCharacter(buf, done, rest);
      assert (done + rest)[ptr..] == rest;
      var len;
      overrun, len := ReadLine(buf, ptr, line, done + rest);
      if overrun {
        LongLine(rest);
        return true, u;
      }
      CommentsLine(rest);
      if len == 0 {
        RemoveHere(buf, ptr, 1, done, rest);
        rest := rest[1..];
      } else if buf[ptr] == '#' {
        RemoveHere(buf, ptr, len, done, rest);
        rest := rest[len..];
      } else {
        ptr := ptr + len + 1;
        ghost var n := if len < |rest| then len + 1 else len;
        Together(done, rest[..n], WithoutComments(rest[n..]));
        Advance(done, rest, n);
        done, rest := done + rest[..n], rest[n..];
      }
      size := StrLen(buf, 0, done + rest);
    }
    u := done;
    NothingLeft();
    assert done + [] == done;
  }

  lemma NothingLeft()
    ensures WithoutComments([]) == [] && ShortLines([], 0)
  {
  }

  /** Removing a comment's characters leaves an empty line. */
  lemma CommentGone(s: Text)
    requires s != [] && s[0] == '#' && LineLength(s) < |s| && LineLength(s) < MAX_LINE_LEN
    ensures WithoutComments(s) == WithoutComments(s[LineLength(s)..])
    ensures ShortLines(s, 0) == ShortLines(s[LineLength(s)..], 0)
  {
    var n := LineLength(s);
    var rest := s[n..];
    CommentLine(s);
    hide LineLength, WithoutComments, KeptLine, LineEnd, ShortLines;
    ShortByLine(s, 0);
    ShortByLine(rest, 0);
    WithoutCommentsUnfolds(s);
    WithoutCommentsUnfolds(rest);
    EmptyInFront(WithoutComments(s[n + 1..]));
  }

  /** A comment and the line end it leaves both keep nothing, before the same text. */
  lemma CommentLine(s: Text)
    requires s != [] && s[0] == '#' && LineLength(s) < |s|
    ensures var rest := s[LineLength(s)..];
      && rest != [] && LineLength(rest) == 0 && LineEnd(rest) == 1 && KeptLine(rest) == [] == KeptLine(s)
      && LineEnd(s) == LineLength(s) + 1 && rest[1..] == s[LineLength(s) + 1..]
  {
    var rest := s[LineLength(s)..];
    assert rest[0] == '\n';
  }

  /**
   The three passes, ending in the cleaned text; but a terminated line that is still as long as
   the line buffer after the second pass overruns that buffer.
   */
  method Cleanup(source: array<char>, ghost t: Text) returns (overrun: bool, out: array<char>, ghost u: Text)
    requires Holds(source, t)
    ensures overrun <==> !ShortLines(Unindented(Untabbed(t, false), true), 0)
    ensures ShortLines(t, 0) ==> !overrun
    ensures !overrun ==> fresh(out) && Holds(out, u) && u == Cleaned(t)
  {
    var len := StrLen(source, 0, t);
    out := new char[len + 1];
    forall k | 0 <= k <= len { out[k] := source[k]; }
    u := RemoveTabs(out, t);
    u := RemoveLeadingSpaces(out, u);
    if ShortLines(t, 0) {
      UntabbedShort(t, false, 0);
      UnindentedShort(Untabbed(t, false), true, 0);
    }
    overrun, u := RemoveComments(out, u);
  }
}
