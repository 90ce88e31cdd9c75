/** grep over a stream read in pieces of any size through a fixed buffer. */
module Grep {
  import opened Matcher

  /** What fits in the buffer beside the terminating zero byte. */
  const ROOM: nat := 1023

  /** Index of the first newline, or the length if there is none. */
  function Newline(s: string): (i: nat)
    ensures i <= |s| && (i < |s| ==> s[i] == '\n') && forall j :: 0 <= j < i ==> s[j] != '\n'
  {
    if s == "" || s[0] == '\n' then 0 else 1 + Newline(s[1..])
  }

  lemma NewlineAt(s: string, i: nat)
    requires i < |s| && s[i] == '\n' && forall j :: 0 <= j < i ==> s[j] != '\n'
    ensures Newline(s) == i
  {
  }

  /** The matching lines of a text, each with its newline; a last line without
      one does not count. */
  ghost function Matching(re: string, s: string): (r: string)
    decreases |s|
  {
    var i := Newline(s);
    if i == |s| then ""
    else (if Contains(re, s[..i]) then s[..i + 1] else "") + Matching(re, s[i + 1..])
  }

  /** The complete lines of a text, without their newlines, and such lines put
      together again. */
  ghost function Lines(s: string): (ls: seq<string>)
    decreases |s|
  {
    var i := Newline(s);
    if i == |s| then [] else [s[..i]] + Lines(s[i + 1..])
  }

  ghost function Joined(ls: seq<string>): (s: string) {
    if ls == [] then "" else ls[0] + "\n" + Joined(ls[1..])
  }

  ghost function Chosen(re: string, ls: seq<string>): (r: seq<string>) {
    if ls == [] then [] else (if Contains(re, ls[0]) then [ls[0]] else []) + Chosen(re, ls[1..])
  }

  /** Lines cuts the text at its newlines, and what comes after the last one has
      none. */
  lemma {:induction false} LinesJoined(s: string) returns (rest: string)
    ensures s == Joined(Lines(s)) + rest && forall j :: 0 <= j < |rest| ==> rest[j] != '\n'
    decreases |s|
  {
    hide Newline;
    var i := Newline(s);
    if i == |s| {
      rest := s;
      assert Joined(Lines(s)) == "";
    } else {
      rest := LinesJoined(s[i + 1..]);
      FirstLine(s, i);
      hide Lines, Joined;
      assert s == (s[..i] + "\n") + s[i + 1..];
    }
  }

  lemma FirstLine(s: string, i: nat)
    requires i == Newline(s) < |s|
    ensures Joined(Lines(s)) == (s[..i] + "\n") + Joined(Lines(s[i + 1..]))
  {
    hide Newline;
    var ls := Lines(s);
    assert ls[0] == s[..i] && ls[1..] == Lines(s[i + 1..]);
    hide Lines;
  }

  lemma {:induction false} LinesWhole(s: string, k: nat)
    requires k < |Lines(s)|
    ensures forall j :: 0 <= j < |Lines(s)[k]| ==> Lines(s)[k][j] != '\n'
    decreases |s|
  {
    hide Newline;
    if k > 0 {
      LinesWhole(s[Newline(s) + 1..], k - 1);
    }
  }

  /** Each line is chosen as often as the text has it if it matches, and else not. */
  lemma {:induction false} ChosenLines(re: string, ls: seq<string>, l: string)
    ensures multiset(Chosen(re, ls))[l] == if Contains(re, l) then multiset(ls)[l] else 0
    decreases |ls|
  {
    hide Contains;
    if ls != [] {
      ChosenLines(re, ls[1..], l);
      assert ls == [ls[0]] + ls[1..];
    }
  }

  /** What is printed are the matching lines, in order. */
  lemma {:induction false} MatchingIsChosen(re: string, s: string)
    ensures Matching(re, s) == Joined(Chosen(re, Lines(s)))
    decreases |s|
  {
    hide Contains;
    var i := Newline(s);
    if i < |s| {
      MatchingIsChosen(re, s[i + 1..]);
      var ls := Lines(s);
      assert ls[0] == s[..i] && ls[1..] == Lines(s[i + 1..]);
      assert s[..i + 1] == s[..i] + "\n";
      if Contains(re, s[..i]) {
        assert Chosen(re, ls) == [s[..i]] + Chosen(re, ls[1..]);
        assert Chosen(re, ls)[1..] == Chosen(re, ls[1..]);
      } else {
        assert Chosen(re, ls) == Chosen(re, ls[1..]);
      }
    }
  }

  /** The part of the input that grep gets to see: up to the first line that
      fills the buffer with more to come. */
  ghost function Readable(s: string): (r: string)
    decreases |s|
  {
    var i := Newline(s);
    if i < ROOM && i < |s| then s[..i + 1] + Readable(s[i + 1..])
    else if |s| > ROOM then ""
    else s
  }

  /** What grep does not get to see begins with a line that fills the buffer; what it
      does see are whole lines, unless it is everything. */
  lemma {:induction false} UnreadBegins(s: string) returns (rest: string)
    ensures s == Readable(s) + rest
    ensures rest != "" ==> |rest| > ROOM && Newline(rest) >= ROOM
    ensures rest != "" && Readable(s) != "" ==> Readable(s)[|Readable(s)| - 1] == '\n'
    decreases |s|
  {
    hide Newline;
    var i := Newline(s);
    if i < ROOM && i < |s| {
      rest := UnreadBegins(s[i + 1..]);
      assert s == s[..i + 1] + s[i + 1..];
      assert Readable(s) == s[..i + 1] + Readable(s[i + 1..]);
    } else if |s| > ROOM {
      rest := s;
    } else {
      rest := "";
    }
  }

  /** Wherever one looks, a newline comes before the buffer is full. */
  ghost predicate LinesFit(s: string) {
    forall i :: 0 <= i && i + ROOM < |s| ==> Newline(s[i..]) < ROOM
  }

  lemma Line(re: string, s: string, i: nat)
    requires i < |s| && i < ROOM && Newline(s) == i
    ensures Readable(s) == s[..i + 1] + Readable(s[i + 1..])
    ensures Matching(re, Readable(s))
         == (if Contains(re, s[..i]) then s[..i + 1] else "") + Matching(re, Readable(s[i + 1..]))
  {
    var r, t := Readable(s), Readable(s[i + 1..]);
    assert r == s[..i + 1] + t;
    assert r[i] == '\n' && forall j :: 0 <= j < i ==> r[j] == s[j];
    NewlineAt(r, i);
    assert r[..i] == s[..i] && r[..i + 1] == s[..i + 1] && r[i + 1..] == t;
  }

  /** Nothing is left to print at the end, be it the input's or the buffer's. */
  lemma Nothing(re: string, s: string, m: nat)
    requires m <= |s| && m <= ROOM && (forall j :: 0 <= j < m ==> s[j] != '\n') && (m == |s| || m == ROOM)
    ensures Matching(re, Readable(s)) == ""
  {
    assert Newline(s) >= m;
    assert Newline("") == 0;
    if m == |s| {
      assert Newline(s) == |s| && Readable(s) == s;
    }
  }

  /** grep prints exactly the matching lines of what is readable, however the
      reads are cut. */
  method GrepStream(re: string, input: string) returns (out: string)
    ensures out == Matching(re, Readable(input))
  {
    hide Matching, Readable, Newline, Contains;
    var buf, pos := "", 0;
    out := "";
    ghost var rest := input;
    while |buf| < ROOM && pos < |input|
      invariant 0 <= pos <= |input| && |buf| <= ROOM && rest == buf + input[pos..]
      invariant forall j :: 0 <= j < |buf| ==> buf[j] != '\n'
      invariant out + Matching(re, Readable(rest)) == Matching(re, Readable(input))
      decreases |input| - pos
    {
      var n :| 1 <= n <= ROOM - |buf| && n <= |input| - pos;
      assert input[pos..] == input[pos..pos + n] + input[pos + n..];
      buf, pos := buf + input[pos..pos + n], pos + n;
      assert rest == buf + input[pos..];
      out, buf, rest := PrintLines(re, buf, out, rest);
      assert rest == buf + rest[|buf|..];
    }
    Nothing(re, rest, |buf|);
  }

  /** The inner loop: complete lines leave the buffer, matching ones are printed. */
  method PrintLines(re: string, buf0: string, out0: string, ghost rest0: string)
    returns (out: string, buf: string, ghost rest: string)
    requires |buf0| <= ROOM && buf0 <= rest0
    ensures |buf| <= |buf0| && (forall j :: 0 <= j < |buf| ==> buf[j] != '\n')
    ensures buf <= rest && rest[|buf|..] == rest0[|buf0|..]
    ensures out + Matching(re, Readable(rest)) == out0 + Matching(re, Readable(rest0))
  {
    hide Matching, Readable, Newline, Contains;
    out, buf, rest := out0, buf0, rest0;
    var q := Newline(buf);
    while q < |buf|
      invariant q == Newline(buf) && |buf| <= |buf0| && buf <= rest && rest[|buf|..] == rest0[|buf0|..]
      invariant out + Matching(re, Readable(rest)) == out0 + Matching(re, Readable(rest0))
      decreases |buf|
    {
      NewlineAt(rest, q);
      Line(re, rest, q);
      assert rest[..q] == buf[..q] && rest[..q + 1] == buf[..q + 1];
      var b := Match(re, buf[..q]);
      ghost var m := Matching(re, Readable(rest[q + 1..]));
      if b {
        assert out + (buf[..q + 1] + m) == out + buf[..q + 1] + m;
        out := out + buf[..q + 1];
      } else {
        assert "" + m == m;
      }
      assert rest[q + 1..][|buf| - q - 1..] == rest[|buf|..];
      buf, rest := buf[q + 1..], rest[q + 1..];
      q := Newline(buf);
    }
  }

  /** All of the input is searched exactly if no line fills the buffer. */
  lemma {:induction false} AllReadIff(s: string)
    ensures Readable(s) == s <==> LinesFit(s)
    ensures |Readable(s)| <= |s|
    decreases |s|
  {
    var i := Newline(s);
    if i < ROOM && i < |s| {
      AllReadIff(s[i + 1..]);
      assert s == s[..i + 1] + s[i + 1..];
      FitsTail(s, i);
    } else if |s| > ROOM {
      assert s[0..] == s;
    }
  }

  /** A line of 1023 characters, searched for the pattern that every line matches:
      it is to be printed, and nothing is. */
  lemma LongLineHidden()
    ensures var s := seq(ROOM, _ => 'a') + "\n"; Matching("", s) == s && Matching("", Readable(s)) == ""
  {
    var s := seq(ROOM, _ => 'a') + "\n";
    NewlineAt(s, ROOM);
    EmptyStarts(s[..ROOM][0..]);
    assert Contains("", s[..ROOM]);
    assert s[ROOM + 1..] == "" && s[..ROOM + 1] == s;
    assert Newline("") == 0;
    assert Readable(s) == "";
  }

  lemma FitsTail(s: string, i: nat)
    requires i < ROOM && i < |s| && Newline(s) == i
    ensures LinesFit(s) <==> LinesFit(s[i + 1..])
  {
    var t := s[i + 1..];
    if LinesFit(s) {
      forall j | 0 <= j && j + ROOM < |t|
        ensures Newline(t[j..]) < ROOM
      {
        assert t[j..] == s[i + 1 + j..];
      }
    }
    if LinesFit(t) {
      forall j | 0 <= j && j + ROOM < |s|
        ensures Newline(s[j..]) < ROOM
      {
        if j <= i {
          assert s[j..][i - j] == '\n';
        } else {
          assert s[j..] == t[j - i - 1..];
        }
      }
    }
  }
}
