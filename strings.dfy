/**
 * Text primitives with the meaning the Ruby and PHP sources give them:
 * String#split (with and without a separator), #strip, #gsub on a
 * character class or a literal, #to_i, IO#gets line splitting, decimal
 * and two-digit hex formatting.  Every primitive used by an encoder has the
 * lemma that undoes it.
 */
module Strings {

  datatype Option<+T> = None | Some(value: T)

  /** Ruby interpolates nil as the empty string: "#{nil}" == "". */
  function Show(o: Option<string>): (s: string)
    ensures o.Some? ==> s == o.value
    ensures o.None? ==> s == ""
  {
    match o
    case None => ""
    case Some(v) => v
  }

  /** "#{n}" for an Integer that may be nil. */
  function ShowInt(o: Option<int>): string
  {
    match o
    case None => ""
    case Some(n) => IntToString(n)
  }

  // ---------------------------------------------------------------------
  // Whitespace, as Ruby's String#split (awk mode), #strip and #to_i see it

  predicate IsSpace(c: char)
  {
    c == ' ' || c == '\t' || c == '\n' || c == '\r' || c == '\U{000B}' || c == '\U{000C}'
  }

  predicate NoSpace(s: string)
  {
    forall i :: 0 <= i < |s| ==> !IsSpace(s[i])
  }

  /** True when no character of `s` is `c`. */
  predicate Lacks(s: string, c: char)
  {
    forall i :: 0 <= i < |s| ==> s[i] != c
  }

  lemma LacksConcat(a: string, b: string, c: char)
    requires Lacks(a, c) && Lacks(b, c)
    ensures Lacks(a + b, c)
  {
    assert forall i :: |a| <= i < |a + b| ==> (a + b)[i] == b[i - |a|];
  }

  predicate HasPrefix(s: string, p: string)
  {
    |p| <= |s| && s[..|p|] == p
  }

  /** Drops leading whitespace (Ruby's lstrip). */
  function SkipSpace(s: string): (r: string)
    ensures |r| <= |s| && r == s[|s| - |r|..]
    ensures |r| > 0 ==> !IsSpace(r[0])
    ensures |s| > 0 && !IsSpace(s[0]) ==> r == s
    decreases |s|
  {
    if |s| > 0 && IsSpace(s[0]) then SkipSpace(s[1..]) else s
  }

  /** Drops trailing whitespace (Ruby's rstrip). */
  function TrimEnd(s: string): (r: string)
    ensures |r| <= |s| && r == s[..|r|]
    ensures |r| > 0 ==> !IsSpace(r[|r| - 1])
    decreases |s|
  {
    if |s| > 0 && IsSpace(s[|s| - 1]) then
      var r := TrimEnd(s[..|s| - 1]);
      assert s[..|s| - 1][..|r|] == s[..|r|];
      r
    else s
  }

  /** Ruby's String#strip. */
  function Strip(s: string): string
  {
    TrimEnd(SkipSpace(s))
  }

  lemma StripNoSpace(s: string)
    requires NoSpace(s)
    ensures Strip(s) == s
  {
  }

  // ---------------------------------------------------------------------
  // String#split with no argument: runs of whitespace separate words,
  // leading and trailing whitespace yields no empty word.

  function WordEnd(s: string, i: nat): (k: nat)
    requires i <= |s|
    ensures i <= k <= |s|
    ensures NoSpace(s[i..k])
    ensures k < |s| ==> IsSpace(s[k])
    decreases |s| - i
  {
    if i == |s| || IsSpace(s[i]) then i else WordEnd(s, i + 1)
  }

  function Words(s: string): (ws: seq<string>)
    decreases |s|
  {
    if |s| == 0 then []
    else if IsSpace(s[0]) then Words(s[1..])
    else
      var k := WordEnd(s, 1);
      [s[..k]] + Words(s[k..])
  }

  lemma WordEndOf(w: string, rest: string, i: nat)
    requires i <= |w| && NoSpace(w)
    requires |rest| == 0 || IsSpace(rest[0])
    ensures WordEnd(w + rest, i) == |w|
    decreases |w| - i
  {
    var s := w + rest;
    if i < |w| {
      assert s[i] == w[i];
      WordEndOf(w, rest, i + 1);
    }
  }

  /** A word followed by whitespace or the end is split off whole. */
  lemma {:induction false} WordsCons(w: string, rest: string)
    requires |w| > 0 && NoSpace(w)
    requires |rest| == 0 || IsSpace(rest[0])
    ensures Words(w + rest) == [w] + Words(rest)
  {
    var s := w + rest;
    assert s[0] == w[0];
    WordEndOf(w, rest, 1);
    assert s[..|w|] == w;
    assert s[|w|..] == rest;
  }

  lemma WordsSkipsSpace(c: char, rest: string)
    requires IsSpace(c)
    ensures Words([c] + rest) == Words(rest)
  {
    assert ([c] + rest)[1..] == rest;
  }

  /** A word with nothing but white space after it. */
  function Phrase(ws: seq<string>): string
  {
    if |ws| == 0 then "" else if |ws| == 1 then ws[0] else ws[0] + " " + Phrase(ws[1..])
  }

  /** Joining pieces without `d` on a separator other than `d` gives a string without `d`. */
  lemma {:induction false} JoinLacks(ls: seq<string>, c: char, d: char)
    requires c != d && NoneHas(ls, d)
    ensures Lacks(JoinWith(ls, c), d)
  {
    if |ls| > 1 {
      JoinLacks(ls[1..], c, d);
      LacksConcat(ls[0], [c], d);
      LacksConcat(ls[0] + [c], JoinWith(ls[1..], c), d);
    }
  }

  /** A phrase of words without `c` has no `c`, unless `c` is the joining space. */
  lemma {:induction false} PhraseLacks(ws: seq<string>, c: char)
    requires c != ' ' && NoneHas(ws, c)
    ensures Lacks(Phrase(ws), c)
  {
    if |ws| > 1 {
      PhraseLacks(ws[1..], c);
      LacksConcat(ws[0] + " ", Phrase(ws[1..]), c);
      LacksConcat(ws[0], " ", c);
    }
  }

  lemma NoSpaceConcat(a: string, b: string)
    requires NoSpace(a) && NoSpace(b)
    ensures NoSpace(a + b)
  {
    assert forall i :: |a| <= i < |a + b| ==> (a + b)[i] == b[i - |a|];
  }

  /** Joining spaceless pieces on a non-space separator gives a spaceless string. */
  lemma {:induction false} JoinNoSpace(ls: seq<string>, c: char)
    requires !IsSpace(c) && forall i :: 0 <= i < |ls| ==> NoSpace(ls[i])
    ensures NoSpace(JoinWith(ls, c))
  {
    if |ls| > 1 {
      JoinNoSpace(ls[1..], c);
      NoSpaceConcat(ls[0], [c]);
      NoSpaceConcat(ls[0] + [c], JoinWith(ls[1..], c));
    }
  }

  predicate AllWords(ws: seq<string>)
  {
    forall i :: 0 <= i < |ws| ==> |ws[i]| > 0 && NoSpace(ws[i])
  }

  /** Splitting a space-joined phrase terminated by a newline gives its words back. */
  lemma {:induction false} WordsOfPhrase(ws: seq<string>)
    requires |ws| > 0 && AllWords(ws)
    ensures Words(Phrase(ws) + "\n") == ws
  {
    if |ws| == 1 {
      WordsCons(ws[0], "\n");
      WordsSkipsSpace('\n', "");
    } else {
      assert AllWords(ws[1..]) by {
        forall i | 0 <= i < |ws| - 1 ensures |ws[1..][i]| > 0 && NoSpace(ws[1..][i]) {
          assert ws[1..][i] == ws[i + 1];
        }
      }
      calc {
        Words(Phrase(ws) + "\n");
        { assert Phrase(ws) + "\n" == ws[0] + (" " + (Phrase(ws[1..]) + "\n")); }
        Words(ws[0] + (" " + (Phrase(ws[1..]) + "\n")));
        { WordsCons(ws[0], " " + (Phrase(ws[1..]) + "\n")); }
        [ws[0]] + Words(" " + (Phrase(ws[1..]) + "\n"));
        { WordsSkipsSpace(' ', Phrase(ws[1..]) + "\n"); }
        [ws[0]] + Words(Phrase(ws[1..]) + "\n");
        { WordsOfPhrase(ws[1..]); }
        [ws[0]] + ws[1..];
        ws;
      }
    }
  }

  /** A phrase whose last word is empty leaves a trailing space, which splitting drops. */
  lemma {:induction false} WordsOfPhraseSpaced(ws: seq<string>)
    requires |ws| > 0 && AllWords(ws)
    ensures Words(Phrase(ws) + " \n") == ws
  {
    if |ws| == 1 {
      WordsCons(ws[0], " \n");
      WordsSkipsSpace(' ', "\n");
      WordsSkipsSpace('\n', "");
    } else {
      assert AllWords(ws[1..]) by {
        forall i | 0 <= i < |ws| - 1 ensures |ws[1..][i]| > 0 && NoSpace(ws[1..][i]) {
          assert ws[1..][i] == ws[i + 1];
        }
      }
      calc {
        Words(Phrase(ws) + " \n");
        { assert Phrase(ws) + " \n" == ws[0] + (" " + (Phrase(ws[1..]) + " \n")); }
        Words(ws[0] + (" " + (Phrase(ws[1..]) + " \n")));
        { WordsCons(ws[0], " " + (Phrase(ws[1..]) + " \n")); }
        [ws[0]] + Words(" " + (Phrase(ws[1..]) + " \n"));
        { WordsSkipsSpace(' ', Phrase(ws[1..]) + " \n"); }
        [ws[0]] + Words(Phrase(ws[1..]) + " \n");
        { WordsOfPhraseSpaced(ws[1..]); }
        [ws[0]] + ws[1..];
        ws;
      }
    }
  }

  // ---------------------------------------------------------------------
  // String#split(c) and Array#join(c)

  /** Every field between separators, empty ones included. */
  function SplitOn(s: string, c: char): (r: seq<string>)
    ensures |r| > 0
    decreases |s|
  {
    if |s| == 0 then [""]
    else
      var rest := SplitOn(s[1..], c);
      if s[0] == c then [""] + rest else [[s[0]] + rest[0]] + rest[1..]
  }

  function JoinWith(ls: seq<string>, c: char): string
  {
    if |ls| == 0 then "" else if |ls| == 1 then ls[0] else ls[0] + [c] + JoinWith(ls[1..], c)
  }

  predicate NoneHas(ls: seq<string>, c: char)
  {
    forall i :: 0 <= i < |ls| ==> Lacks(ls[i], c)
  }

  lemma {:induction false} SplitField(w: string, c: char)
    requires Lacks(w, c)
    ensures SplitOn(w, c) == [w]
  {
    if |w| > 0 {
      SplitField(w[1..], c);
      assert [w[0]] + w[1..] == w;
    }
  }

  lemma {:induction false} SplitFieldThen(w: string, c: char, rest: string)
    requires Lacks(w, c)
    ensures SplitOn(w + [c] + rest, c) == [w] + SplitOn(rest, c)
    decreases |w|
  {
    var s := w + [c] + rest;
    if |w| == 0 {
      assert s[1..] == rest;
    } else {
      assert s[1..] == w[1..] + [c] + rest;
      SplitFieldThen(w[1..], c, rest);
      assert [w[0]] + w[1..] == w;
    }
  }

  /** Splitting undoes joining when no field holds the separator. */
  lemma {:induction false} SplitJoin(ls: seq<string>, c: char)
    requires |ls| > 0 && NoneHas(ls, c)
    ensures SplitOn(JoinWith(ls, c), c) == ls
  {
    if |ls| == 1 {
      SplitField(ls[0], c);
    } else {
      SplitFieldThen(ls[0], c, JoinWith(ls[1..], c));
      assert NoneHas(ls[1..], c) by {
        forall i | 0 <= i < |ls| - 1 ensures Lacks(ls[1..][i], c) {
          assert ls[1..][i] == ls[i + 1];
        }
      }
      SplitJoin(ls[1..], c);
    }
  }

  /** Joining what was split gives the string back. */
  lemma {:induction false} JoinSplit(s: string, c: char)
    ensures JoinWith(SplitOn(s, c), c) == s
    decreases |s|
  {
    if |s| > 0 {
      var rest := SplitOn(s[1..], c);
      JoinSplit(s[1..], c);
      if s[0] == c {
        assert s == [c] + s[1..];
      } else if |rest| == 1 {
        assert s == [s[0]] + rest[0];
      } else {
        assert rest == [rest[0]] + rest[1..];
        assert JoinWith(rest, c) == rest[0] + [c] + JoinWith(rest[1..], c);
        assert s == [s[0]] + rest[0] + [c] + JoinWith(rest[1..], c);
      }
    }
  }

  function DropTrailingEmpty(ls: seq<string>): (r: seq<string>)
    ensures |r| <= |ls| && r == ls[..|r|]
    ensures |r| > 0 ==> r[|r| - 1] != ""
    decreases |ls|
  {
    if |ls| > 0 && ls[|ls| - 1] == "" then DropTrailingEmpty(ls[..|ls| - 1]) else ls
  }

  /** Ruby's String#split(c): the fields, with trailing empty fields removed. */
  function RubySplit(s: string, c: char): seq<string>
  {
    DropTrailingEmpty(SplitOn(s, c))
  }

  lemma RubySplitJoin(ls: seq<string>, c: char)
    requires |ls| > 0 && NoneHas(ls, c) && ls[|ls| - 1] != ""
    ensures RubySplit(JoinWith(ls, c), c) == ls
  {
    SplitJoin(ls, c);
  }

  // ---------------------------------------------------------------------
  // gsub with a character class, with a literal, and /c(.*)$/

  /** gsub(/[...]/, ''): deletes every character of the class. */
  function RemoveChars(s: string, cs: set<char>): (r: string)
    ensures |r| <= |s|
    ensures forall i :: 0 <= i < |r| ==> r[i] !in cs
    decreases |s|
  {
    if |s| == 0 then "" else if s[0] in cs then RemoveChars(s[1..], cs) else [s[0]] + RemoveChars(s[1..], cs)
  }

  lemma {:induction false} RemoveCharsAppend(a: string, b: string, cs: set<char>)
    ensures RemoveChars(a + b, cs) == RemoveChars(a, cs) + RemoveChars(b, cs)
    decreases |a|
  {
    if |a| > 0 {
      assert (a + b)[1..] == a[1..] + b;
      RemoveCharsAppend(a[1..], b, cs);
    } else {
      assert a + b == b;
    }
  }

  lemma {:induction false} RemoveCharsNone(s: string, cs: set<char>)
    requires forall i :: 0 <= i < |s| ==> s[i] !in cs
    ensures RemoveChars(s, cs) == s
    decreases |s|
  {
    if |s| > 0 {
      RemoveCharsNone(s[1..], cs);
      assert [s[0]] + s[1..] == s;
    }
  }

  /** True when no character of `s` is in `cs`. */
  predicate Avoids(s: string, cs: set<char>)
  {
    forall i :: 0 <= i < |s| ==> s[i] !in cs
  }

  lemma AvoidsConcat(a: string, b: string, cs: set<char>)
    requires Avoids(a, cs) && Avoids(b, cs)
    ensures Avoids(a + b, cs)
  {
    assert forall i :: |a| <= i < |a + b| ==> (a + b)[i] == b[i - |a|];
  }

  /** Joining pieces that avoid `cs` on a separator outside `cs` avoids `cs`. */
  lemma {:induction false} JoinAvoids(ls: seq<string>, c: char, cs: set<char>)
    requires c !in cs && forall i :: 0 <= i < |ls| ==> Avoids(ls[i], cs)
    ensures Avoids(JoinWith(ls, c), cs)
  {
    if |ls| > 1 {
      JoinAvoids(ls[1..], c, cs);
      AvoidsConcat(ls[0], [c], cs);
      AvoidsConcat(ls[0] + [c], JoinWith(ls[1..], c), cs);
    }
  }

  /** True when `pat` occurs in `s` starting at index `i`. */
  predicate OccursAt(s: string, pat: string, i: nat)
  {
    i + |pat| <= |s| && s[i..i + |pat|] == pat
  }

  predicate Contains(s: string, pat: string)
  {
    exists i: nat | i <= |s| :: OccursAt(s, pat, i)
  }

  /** gsub(literal, ''): deletes the leftmost non-overlapping occurrences. */
  function RemoveAll(s: string, pat: string): (r: string)
    requires |pat| > 0
    decreases |s|
  {
    if |s| == 0 then ""
    else if HasPrefix(s, pat) then RemoveAll(s[|pat|..], pat)
    else [s[0]] + RemoveAll(s[1..], pat)
  }

  lemma {:induction false} RemoveAllAbsent(s: string, pat: string)
    requires |pat| > 0 && !Contains(s, pat)
    ensures RemoveAll(s, pat) == s
    decreases |s|
  {
    if |s| > 0 {
      assert !OccursAt(s, pat, 0);
      assert !Contains(s[1..], pat) by {
        forall i: nat ensures !OccursAt(s[1..], pat, i) {
          assert !OccursAt(s, pat, i + 1);
          if i + |pat| <= |s| - 1 {
            assert s[1..][i..i + |pat|] == s[i + 1..i + 1 + |pat|];
          }
        }
      }
      RemoveAllAbsent(s[1..], pat);
      assert [s[0]] + s[1..] == s;
    }
  }

  lemma RemoveAllLeading(pat: string, s: string)
    requires |pat| > 0 && !Contains(s, pat)
    ensures RemoveAll(pat + s, pat) == s
  {
    assert (pat + s)[..|pat|] == pat;
    assert (pat + s)[|pat|..] == s;
    RemoveAllAbsent(s, pat);
  }

  /** gsub(/c(.*)$/, '') on a line-free token: keeps what precedes the first `c`. */
  function CutAt(s: string, c: char): (r: string)
    ensures |r| <= |s| && r == s[..|r|] && Lacks(r, c)
    ensures |r| < |s| ==> s[|r|] == c
    decreases |s|
  {
    if |s| == 0 || s[0] == c then "" else [s[0]] + CutAt(s[1..], c)
  }

  lemma {:induction false} CutAtField(w: string, c: char, rest: string)
    requires Lacks(w, c)
    ensures CutAt(w + [c] + rest, c) == w
    decreases |w|
  {
    if |w| > 0 {
      assert (w + [c] + rest)[1..] == w[1..] + [c] + rest;
      CutAtField(w[1..], c, rest);
      assert [w[0]] + w[1..] == w;
    }
  }

  /** A token without `c` is kept whole. */
  lemma {:induction false} CutAtAbsent(s: string, c: char)
    requires Lacks(s, c)
    ensures CutAt(s, c) == s
    decreases |s|
  {
    if |s| > 0 {
      CutAtAbsent(s[1..], c);
      assert [s[0]] + s[1..] == s;
    }
  }

  /** gsub(/^p/, ''): removes `p` once, at the start. */
  function DropPrefix(s: string, p: string): (r: string)
    ensures HasPrefix(s, p) ==> p + r == s
    ensures !HasPrefix(s, p) ==> r == s
  {
    if HasPrefix(s, p) then s[|p|..] else s
  }

  // ---------------------------------------------------------------------
  // IO#gets: each line keeps its terminating newline; the last line may lack one

  function LineEnd(s: string, i: nat): (k: nat)
    requires i <= |s|
    ensures i <= k <= |s|
    decreases |s| - i
  {
    if i == |s| then i else if s[i] == '\n' then i + 1 else LineEnd(s, i + 1)
  }

  function GetsLines(s: string): seq<string>
    decreases |s|
  {
    if |s| == 0 then []
    else
      var k := LineEnd(s, 0);
      assert k > 0 by { assert LineEnd(s, 0) >= (if s[0] == '\n' then 1 else LineEnd(s, 1)); }
      [s[..k]] + GetsLines(s[k..])
  }

  lemma LineEndOf(l: string, rest: string, i: nat)
    requires i <= |l| && Lacks(l, '\n')
    ensures LineEnd(l + "\n" + rest, i) == |l| + 1
    decreases |l| - i
  {
    var s := l + "\n" + rest;
    if i < |l| {
      assert s[i] == l[i];
      LineEndOf(l, rest, i + 1);
    } else {
      assert s[i] == '\n';
    }
  }

  lemma {:induction false} GetsLinesCons(l: string, rest: string)
    requires Lacks(l, '\n')
    ensures GetsLines(l + "\n" + rest) == [l + "\n"] + GetsLines(rest)
  {
    var s := l + "\n" + rest;
    LineEndOf(l, rest, 0);
    assert s[..|l| + 1] == l + "\n";
    assert s[|l| + 1..] == rest;
  }

  lemma NoneHasAppend(a: seq<string>, b: seq<string>, c: char)
    requires NoneHas(a, c) && NoneHas(b, c)
    ensures NoneHas(a + b, c)
  {
    assert forall i :: |a| <= i < |a + b| ==> (a + b)[i] == b[i - |a|];
  }

  /** The text a sequence of newline-terminated lines makes up. */
  function Unlines(ls: seq<string>): string
  {
    if |ls| == 0 then "" else ls[0] + "\n" + Unlines(ls[1..])
  }

  /** Each line with its newline, as gets returns it. */
  function Terminated(ls: seq<string>): (r: seq<string>)
    ensures |r| == |ls|
    ensures forall i :: 0 <= i < |ls| ==> r[i] == ls[i] + "\n"
  {
    seq(|ls|, i requires 0 <= i < |ls| => ls[i] + "\n")
  }

  /** Reading back what was written line by line gives the same lines. */
  lemma {:induction false} GetsLinesUnlines(ls: seq<string>)
    requires NoneHas(ls, '\n')
    ensures GetsLines(Unlines(ls)) == Terminated(ls)
  {
    if |ls| > 0 {
      GetsLinesCons(ls[0], Unlines(ls[1..]));
      assert NoneHas(ls[1..], '\n') by {
        forall i | 0 <= i < |ls| - 1 ensures Lacks(ls[1..][i], '\n') {
          assert ls[1..][i] == ls[i + 1];
        }
      }
      GetsLinesUnlines(ls[1..]);
    }
  }

  // ---------------------------------------------------------------------
  // Decimal numbers: Integer#to_s and String#to_i

  predicate IsDigit(c: char)
  {
    '0' <= c <= '9'
  }

  function DigitChar(d: nat): (c: char)
    requires d < 10
    ensures IsDigit(c)
  {
    ('0' as int + d) as char
  }

  function DigitValue(c: char): (d: nat)
    requires IsDigit(c)
    ensures d < 10
  {
    (c as int - '0' as int) as nat
  }

  function NatToString(n: nat): (s: string)
    ensures |s| > 0
    ensures forall i :: 0 <= i < |s| ==> IsDigit(s[i])
    decreases n
  {
    if n < 10 then [DigitChar(n)] else NatToString(n / 10) + [DigitChar(n % 10)]
  }

  /** Integer#to_s. */
  function IntToString(i: int): string
  {
    if i < 0 then "-" + NatToString(-i) else NatToString(i)
  }

  /** A decimal numeral is a non-empty word of digits and at most a leading '-'. */
  lemma IntToStringWord(i: int)
    ensures |IntToString(i)| > 0 && NoSpace(IntToString(i))
    ensures forall k :: 0 <= k < |IntToString(i)| ==> IsDigit(IntToString(i)[k]) || IntToString(i)[k] == '-'
  {
    var n: nat := if i < 0 then -i else i;
    var d := NatToString(n);
    if i < 0 {
      assert IntToString(i) == "-" + d;
      assert forall k :: 1 <= k < |IntToString(i)| ==> IntToString(i)[k] == d[k - 1];
    }
  }

  /** The longest prefix made of digits. */
  function LeadingDigits(s: string): (d: string)
    ensures |d| <= |s| && d == s[..|d|]
    ensures forall i :: 0 <= i < |d| ==> IsDigit(d[i])
    decreases |s|
  {
    if |s| > 0 && IsDigit(s[0]) then [s[0]] + LeadingDigits(s[1..]) else ""
  }

  function DigitsValue(d: string): nat
    requires forall i :: 0 <= i < |d| ==> IsDigit(d[i])
    decreases |d|
  {
    if |d| == 0 then 0 else DigitsValue(d[..|d| - 1]) * 10 + DigitValue(d[|d| - 1])
  }

  /**
   * The digits String#to_i reads from the start of `s`: a run of digits in
   * which a single '_' may stand between two digits, underscores dropped.
   */
  function DigitRun(s: string): (d: string)
    ensures forall i :: 0 <= i < |d| ==> IsDigit(d[i])
    decreases |s|
  {
    if |s| == 0 || !IsDigit(s[0]) then ""
    else if |s| > 2 && s[1] == '_' && IsDigit(s[2]) then [s[0]] + DigitRun(s[2..])
    else [s[0]] + DigitRun(s[1..])
  }

  /** The base-10 prefix "0d" (or "0D"), which to_i skips. */
  function DropDecimalPrefix(s: string): string
  {
    if |s| >= 2 && s[0] == '0' && (s[1] == 'd' || s[1] == 'D') then s[2..] else s
  }

  /**
   * String#to_i: leading white space, an optional sign, an optional "0d",
   * then digits with single underscores between them; 0 when there are none.
   */
  function ToI(s: string): int
  {
    var t := SkipSpace(s);
    if |t| > 0 && t[0] == '-' then -(Unsigned(t[1..]) as int)
    else if |t| > 0 && t[0] == '+' then Unsigned(t[1..])
    else Unsigned(t)
  }

  /** The value to_i reads after the sign. */
  function Unsigned(u: string): nat
  {
    DigitsValue(DigitRun(DropDecimalPrefix(u)))
  }

  /** A string of digits alone is read whole. */
  lemma {:induction false} DigitRunAll(s: string)
    requires forall i :: 0 <= i < |s| ==> IsDigit(s[i])
    ensures DigitRun(s) == s
    decreases |s|
  {
    if |s| > 0 {
      DigitRunAll(s[1..]);
      assert [s[0]] + s[1..] == s;
    }
  }

  /** Digits followed by a digit run on into it. */
  lemma {:induction false} DigitRunJoin(x: string, r: string)
    requires forall i :: 0 <= i < |x| ==> IsDigit(x[i])
    requires |r| > 0 && IsDigit(r[0])
    ensures DigitRun(x + r) == x + DigitRun(r)
    decreases |x|
  {
    if |x| > 0 {
      var s := x + r;
      assert s[1..] == x[1..] + r;
      assert s[1] != '_';
      assert DigitRun(s) == [x[0]] + DigitRun(s[1..]);
      DigitRunJoin(x[1..], r);
      assert [x[0]] + (x[1..] + DigitRun(r)) == x + DigitRun(r);
    } else {
      assert x + r == r;
    }
  }

  /** A single '_' between digits is skipped. */
  lemma {:induction false} DigitRunSkip(x: string, r: string)
    requires |x| > 0 && forall i :: 0 <= i < |x| ==> IsDigit(x[i])
    requires |r| > 0 && IsDigit(r[0])
    ensures DigitRun(x + "_" + r) == x + DigitRun(r)
    decreases |x|
  {
    var s := x + "_" + r;
    if |x| == 1 {
      assert s[1] == '_' && s[2] == r[0] && s[2..] == r;
      assert [x[0]] == x;
    } else {
      assert s[1] == x[1] && s[1..] == x[1..] + "_" + r;
      DigitRunSkip(x[1..], r);
      assert [x[0]] + (x[1..] + DigitRun(r)) == x + DigitRun(r);
    }
  }

  /** Text that neither starts with a digit nor with '_' and a digit ends a run. */
  predicate EndsRun(r: string)
  {
    |r| == 0 || (!IsDigit(r[0]) && !(|r| > 1 && r[0] == '_' && IsDigit(r[1])))
  }

  lemma {:induction false} DigitRunStops(x: string, r: string)
    requires forall i :: 0 <= i < |x| ==> IsDigit(x[i])
    requires EndsRun(r)
    ensures DigitRun(x + r) == x
    decreases |x|
  {
    var s := x + r;
    if |x| == 0 {
      assert s == r;
    } else {
      assert s[1..] == x[1..] + r;
      assert |x| == 1 ==> s[1..] == r;
      DigitRunStops(x[1..], r);
      assert [x[0]] + x[1..] == x;
    }
  }

  /** Text that starts with a digit is read by to_i from its first character. */
  lemma ToIFromDigit(s: string)
    requires |s| > 0 && IsDigit(s[0]) && (|s| > 1 ==> s[1] != 'd' && s[1] != 'D')
    ensures ToI(s) == DigitsValue(DigitRun(s))
  {
    assert !IsSpace(s[0]) && s[0] != '-' && s[0] != '+';
    assert SkipSpace(s) == s;
    assert DropDecimalPrefix(s) == s;
  }

  /**
   * Ruby's digit separator: removing one '_' that stands between two digits
   * does not change what to_i reads, so digits split into groups by single
   * underscores read as the digits alone.
   */
  lemma ToISeparated(x: string, r: string)
    requires |x| > 0 && forall i :: 0 <= i < |x| ==> IsDigit(x[i])
    requires |r| > 0 && IsDigit(r[0])
    ensures ToI(x + "_" + r) == ToI(x + r)
    ensures (forall i :: 0 <= i < |r| ==> IsDigit(r[i])) ==> ToI(x + "_" + r) == DigitsValue(x + r)
  {
    var s, t := x + "_" + r, x + r;
    assert s[0] == x[0] && t[0] == x[0];
    assert |x| > 1 ==> s[1] == x[1] && t[1] == x[1];
    assert |x| == 1 ==> s[1] == '_' && t[1] == r[0];
    ToIFromDigit(s);
    ToIFromDigit(t);
    DigitRunSkip(x, r);
    DigitRunJoin(x, r);
    if forall i :: 0 <= i < |r| ==> IsDigit(r[i]) {
      DigitRunAll(r);
    }
  }

  /** Two underscores in a row end the number: what follows them is not read. */
  lemma ToIDoubled(x: string, r: string)
    requires |x| > 0 && forall i :: 0 <= i < |x| ==> IsDigit(x[i])
    ensures ToI(x + "__" + r) == DigitsValue(x)
  {
    var s := x + "__" + r;
    assert s == x + ("__" + r);
    assert s[0] == x[0];
    assert |x| > 1 ==> s[1] == x[1];
    assert |x| == 1 ==> s[1] == '_';
    ToIFromDigit(s);
    DigitRunStops(x, "__" + r);
  }

  /** The prefix "0d" or "0D" is skipped before the digits. */
  lemma ToIPrefixed(x: string, big: bool)
    requires forall i :: 0 <= i < |x| ==> IsDigit(x[i])
    ensures ToI((if big then "0D" else "0d") + x) == DigitsValue(x)
  {
    var pre := if big then "0D" else "0d";
    assert |pre| == 2 && pre[0] == '0' && (pre[1] == 'd' || pre[1] == 'D');
    ToIAfterPrefix(pre, x);
    DigitRunAll(x);
  }

  lemma ToIAfterPrefix(pre: string, x: string)
    requires |pre| == 2 && pre[0] == '0' && (pre[1] == 'd' || pre[1] == 'D')
    ensures ToI(pre + x) == DigitsValue(DigitRun(x))
  {
    var s := pre + x;
    assert s[0] == '0' && s[1] == pre[1] && s[2..] == x;
    assert !IsSpace(s[0]) && s[0] != '-' && s[0] != '+';
    assert SkipSpace(s) == s;
    assert DropDecimalPrefix(s) == x;
  }

  /** "1_0".to_i is 10, "1__0".to_i is 1 and "0d7".to_i is 7. */
  lemma ToIExamples()
    ensures ToI("1_0") == 10 && ToI("1__0") == 1 && ToI("0d7") == 7
  {
    SeparatedExample();
    DoubledExample();
    PrefixedExample();
  }

  lemma SeparatedExample()
    ensures ToI("1_0") == 10
  {
    var x, r := "1", "0";
    assert x + "_" + r == "1_0" && x + r == "10";
    ToISeparated(x, r);
    DigitsValueTen();
  }

  lemma DoubledExample()
    ensures ToI("1__0") == 1
  {
    var x, r := "1", "0";
    assert x + "__" + r == "1__0";
    ToIDoubled(x, r);
    DigitsValueTen();
  }

  lemma PrefixedExample()
    ensures ToI("0d7") == 7
  {
    var x := "7";
    assert "0d" + x == "0d7";
    ToIPrefixed(x, false);
    DigitsValueTen();
  }

  lemma DigitsValueTen()
    ensures DigitsValue("10") == 10 && DigitsValue("1") == 1 && DigitsValue("7") == 7
  {
    assert "10"[..1] == "1" && "1"[..0] == "" && "7"[..0] == "";
  }

  lemma {:induction false} LeadingDigitsAll(s: string)
    requires forall i :: 0 <= i < |s| ==> IsDigit(s[i])
    ensures LeadingDigits(s) == s
    decreases |s|
  {
    if |s| > 0 {
      LeadingDigitsAll(s[1..]);
      assert [s[0]] + s[1..] == s;
    }
  }


  lemma {:induction false} DigitsValueOfNat(n: nat)
    ensures DigitsValue(NatToString(n)) == n
    decreases n
  {
    var s := NatToString(n);
    if n >= 10 {
      DigitsValueOfNat(n / 10);
      assert s[..|s| - 1] == NatToString(n / 10);
    }
  }

  /** Digits alone are read whole. */
  lemma UnsignedOfDigits(s: string)
    requires forall i :: 0 <= i < |s| ==> IsDigit(s[i])
    ensures Unsigned(s) == DigitsValue(s)
  {
    assert |s| >= 2 ==> IsDigit(s[1]);
    assert DropDecimalPrefix(s) == s;
    DigitRunAll(s);
  }

  lemma ToIOfDigits(s: string)
    requires |s| > 0 && forall i :: 0 <= i < |s| ==> IsDigit(s[i])
    ensures ToI(s) == DigitsValue(s)
  {
    assert !IsSpace(s[0]) && s[0] != '-' && s[0] != '+';
    assert SkipSpace(s) == s;
    UnsignedOfDigits(s);
  }

  lemma ToIOfNegDigits(s: string)
    requires |s| > 0 && forall i :: 0 <= i < |s| ==> IsDigit(s[i])
    ensures ToI("-" + s) == -(DigitsValue(s) as int)
  {
    var t := "-" + s;
    assert t[0] == '-' && !IsSpace(t[0]);
    assert SkipSpace(t) == t;
    assert t[1..] == s;
    UnsignedOfDigits(s);
  }

  /** to_i reads back what to_s wrote. */
  lemma ToIOfIntToString(i: int)
    ensures ToI(IntToString(i)) == i
  {
    var n: nat := if i < 0 then -i else i;
    DigitsValueOfNat(n);
    if i < 0 {
      ToIOfNegDigits(NatToString(n));
    } else {
      ToIOfDigits(NatToString(n));
    }
  }

  // ---------------------------------------------------------------------
  // sprintf("%02x", n) for n < 256, and its inverse

  function HexDigit(d: nat): (c: char)
    requires d < 16
    ensures IsHexDigit(c)
  {
    if d < 10 then ('0' as int + d) as char else ('a' as int + d - 10) as char
  }

  predicate IsHexDigit(c: char)
  {
    '0' <= c <= '9' || 'a' <= c <= 'f'
  }

  function HexValue(c: char): (d: nat)
    requires IsHexDigit(c)
    ensures d < 16
  {
    if c <= '9' then (c as int - '0' as int) as nat else (c as int - 'a' as int + 10) as nat
  }

  function Hex2(n: nat): (s: string)
    requires n < 256
    ensures |s| == 2 && IsHexDigit(s[0]) && IsHexDigit(s[1])
    ensures HexValue(s[0]) * 16 + HexValue(s[1]) == n
  {
    assert HexValue(HexDigit(n / 16)) == n / 16;
    assert HexValue(HexDigit(n % 16)) == n % 16;
    [HexDigit(n / 16), HexDigit(n % 16)]
  }
}
