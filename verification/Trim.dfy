/**
 `StringUtils::ReplaceAll` and `Trim`, and the bracket and quote check `SmartSplit` runs
 on trimmed text. Trimming is joining the words with single blanks.
 */
module Trim {
  import opened Common

  // ---------- searching ----------

  predicate OccursAt(s: string, search: string, p: nat) {
    p + |search| <= |s| && s[p..p + |search|] == search
  }

  /** `str.find(search, from)`. */
  function FindFrom(s: string, search: string, from: nat): (r: Option<nat>)
    ensures r.Some? ==> from <= r.value && OccursAt(s, search, r.value)
    ensures r.Some? ==> forall q :: from <= q < r.value ==> !OccursAt(s, search, q)
    ensures r.None? ==> forall q :: from <= q ==> !OccursAt(s, search, q)
    decreases if from > |s| then 0 else |s| + 1 - from
  {
    if from > |s| then None
    else if OccursAt(s, search, from) then Some(from)
    else FindFrom(s, search, from + 1)
  }

  // ---------- what `ReplaceAll` does in `Trim` ----------

  function TabsToBlanks(s: string): (r: string)
    ensures |r| == |s|
    ensures forall i :: 0 <= i < |s| ==> r[i] == if s[i] == '\t' then ' ' else s[i]
  {
    seq(|s|, i requires 0 <= i < |s| => if s[i] == '\t' then ' ' else s[i])
  }

  /** Every run of blanks shrunk to one. */
  function Collapsed(s: string): string {
    if |s| < 2 then s
    else if s[0] == ' ' && s[1] == ' ' then Collapsed(s[1..])
    else [s[0]] + Collapsed(s[1..])
  }

  function TabCount(s: string): nat {
    if s == "" then 0 else (if s[0] == '\t' then 1 else 0) + TabCount(s[1..])
  }

  predicate NoTab(s: string) {
    forall i :: 0 <= i < |s| ==> s[i] != '\t'
  }

  predicate NoDoubleBlank(s: string) {
    forall i :: 0 <= i < |s| - 1 ==> !(s[i] == ' ' && s[i + 1] == ' ')
  }

  lemma {:induction false} TabCountSplit(a: string, b: string)
    ensures TabCount(a + b) == TabCount(a) + TabCount(b)
    decreases |a|
  {
    if a == "" {
      assert a + b == b;
    } else {
      assert (a + b)[1..] == a[1..] + b;
      TabCountSplit(a[1..], b);
    }
  }

  /** Replacing one tab moves the measure down and leaves the goal where it was. */
  lemma ReplaceTab(s: string, p: nat)
    requires p < |s| && s[p] == '\t'
    ensures var r := s[..p] + " " + s[p + 1..];
            |r| + TabCount(r) < |s| + TabCount(s) && TabsToBlanks(r) == TabsToBlanks(s)
  {
    var a, b := s[..p], s[p + 1..];
    assert s == a + ("\t" + b) && s[..p] + " " + s[p + 1..] == a + (" " + b);
    TabCountSplit(a, "\t" + b);
    TabCountSplit(a, " " + b);
    assert ("\t" + b)[1..] == b && (" " + b)[1..] == b;
  }

  lemma {:induction false} ReplaceDouble(s: string, p: nat)
    requires p + 1 < |s| && s[p] == ' ' && s[p + 1] == ' '
    ensures var r := s[..p] + " " + s[p + 2..];
            |r| + TabCount(r) < |s| + TabCount(s) && Collapsed(r) == Collapsed(s)
    decreases p
  {
    var r := s[..p] + " " + s[p + 2..];
    if p == 0 {
      assert r == s[1..];
    } else {
      assert r[1..] == s[1..][..p - 1] + " " + s[1..][p + 1..];
      ReplaceDouble(s[1..], p - 1);
      assert r[0] == s[0] && r[1] == s[1];
    }
  }

  lemma {:induction false} CollapsedNothing(s: string)
    requires NoDoubleBlank(s)
    ensures Collapsed(s) == s
  {
    if |s| >= 2 {
      assert NoDoubleBlank(s[1..]) by {
        assert forall i :: 0 <= i < |s| - 1 ==> s[1..][i] == s[i + 1];
      }
      CollapsedNothing(s[1..]);
    }
  }

  /** `ReplaceAll`, for the two uses `Trim` makes of it. */
  method ReplaceAll(text: string, search: string, replace: string) returns (str: string)
    requires (search == "\t" || search == "  ") && replace == " "
    ensures search == "\t" ==> str == TabsToBlanks(text)
    ensures search == "  " ==> str == Collapsed(text)
  {
    str := text;
    if |str| == 0 {
      return;
    }
    var pos := FindFrom(str, search, 0);
    while pos.Some?
      invariant pos == FindFrom(str, search, 0)
      invariant search == "\t" ==> TabsToBlanks(str) == TabsToBlanks(text)
      invariant search == "  " ==> Collapsed(str) == Collapsed(text)
      decreases |str| + TabCount(str)
    {
      var p := pos.value;
      assert str[p..p + |search|] == search;
      assert str[p] == search[0] && str[p + |search| - 1] == search[|search| - 1];
      if search == "\t" {
        ReplaceTab(str, p);
      } else {
        ReplaceDouble(str, p);
      }
      str := str[..p] + replace + str[p + |search|..];
      pos := FindFrom(str, search, 0);
    }
    NothingLeft(str, search);
  }

  lemma NothingLeft(s: string, search: string)
    requires search == "\t" || search == "  "
    requires forall q: nat :: !OccursAt(s, search, q)
    ensures search == "\t" ==> NoTab(s) && TabsToBlanks(s) == s
    ensures search == "  " ==> NoDoubleBlank(s) && Collapsed(s) == s
  {
    if search == "\t" {
      forall i | 0 <= i < |s|
        ensures s[i] != '\t'
      {
        assert !OccursAt(s, search, i);
        assert s[i..i + 1] == [s[i]];
      }
    } else {
      forall i | 0 <= i < |s| - 1
        ensures !(s[i] == ' ' && s[i + 1] == ' ')
      {
        assert !OccursAt(s, search, i);
        assert s[i..i + 2] == [s[i], s[i + 1]];
      }
      CollapsedNothing(s);
    }
  }

  // ---------- Trim ----------

  function WithoutFirstBlank(s: string): string {
    if s != "" && s[0] == ' ' then s[1..] else s
  }

  function WithoutLastBlank(s: string): string {
    if s != "" && s[|s| - 1] == ' ' then s[..|s| - 1] else s
  }

  function Trimmed(s: string): string {
    WithoutLastBlank(WithoutFirstBlank(Collapsed(TabsToBlanks(s))))
  }

  /**
   `Trim`. On text of nothing but blanks the source reads before the start of the string; the
   guard stands for that.
   */
  method TrimText(text: string) returns (str: string)
    ensures str == Trimmed(text)
  {
    str := text;
    if |str| == 0 {
      return;
    }
    str := ReplaceAll(str, "\t", " ");
    str := ReplaceAll(str, "  ", " ");
    if str != "" && str[0] == ' ' {
      str := str[1..];
    }
    if str != "" && str[|str| - 1] == ' ' {
      str := str[..|str| - 1];
    }
  }

  // ---------- what trimming means ----------

  predicate IsBlank(c: char) {
    c == ' ' || c == '\t'
  }

  /** The words of `s`, `cur` being the one begun before it. */
  function WordsFrom(s: string, cur: string): seq<string> {
    var done := if cur == "" then [] else [cur];
    if s == "" then done
    else if IsBlank(s[0]) then done + WordsFrom(s[1..], "")
    else WordsFrom(s[1..], cur + [s[0]])
  }

  function Words(s: string): seq<string> {
    WordsFrom(s, "")
  }

  function JoinWords(ws: seq<string>): string {
    if ws == [] then "" else if |ws| == 1 then ws[0] else ws[0] + " " + JoinWords(ws[1..])
  }

  /** No tab, no double blank, no blank at either end. */
  predicate Tidy(s: string) {
    NoTab(s) && NoDoubleBlank(s) && (s != "" ==> s[0] != ' ' && s[|s| - 1] != ' ')
  }

  lemma {:induction false} WordsOfTabsToBlanks(s: string, cur: string)
    ensures WordsFrom(TabsToBlanks(s), cur) == WordsFrom(s, cur)
    decreases |s|
  {
    if s != "" {
      assert TabsToBlanks(s)[1..] == TabsToBlanks(s[1..]);
      WordsOfTabsToBlanks(s[1..], "");
      WordsOfTabsToBlanks(s[1..], cur + [s[0]]);
    }
  }

  lemma {:induction false} WordsOfCollapsed(s: string, cur: string)
    ensures WordsFrom(Collapsed(s), cur) == WordsFrom(s, cur)
    decreases |s|
  {
    if |s| >= 2 {
      if s[0] == ' ' && s[1] == ' ' {
        WordsOfCollapsed(s[1..], cur);
      } else {
        assert ([s[0]] + Collapsed(s[1..]))[1..] == Collapsed(s[1..]);
        WordsOfCollapsed(s[1..], "");
        WordsOfCollapsed(s[1..], cur + [s[0]]);
      }
    }
  }

  lemma {:induction false} WordsIgnoreLastBlank(s: string, cur: string)
    ensures WordsFrom(s + " ", cur) == WordsFrom(s, cur)
    decreases |s|
  {
    var t := s + " ";
    if s == "" {
      assert t == " " && t[1..] == "";
    } else {
      assert t[0] == s[0] && t[1..] == s[1..] + " ";
      WordsIgnoreLastBlank(s[1..], "");
      WordsIgnoreLastBlank(s[1..], cur + [s[0]]);
    }
  }

  lemma WordsOfTrimmed(s: string)
    ensures Words(Trimmed(s)) == Words(s)
  {
    var a := TabsToBlanks(s);
    var b := Collapsed(a);
    var c := WithoutFirstBlank(b);
    WordsOfTabsToBlanks(s, "");
    WordsOfCollapsed(a, "");
    if c != "" && c[|c| - 1] == ' ' {
      assert c == c[..|c| - 1] + " ";
      WordsIgnoreLastBlank(c[..|c| - 1], "");
    }
  }

  lemma {:induction false} CollapsedShape(s: string)
    ensures NoDoubleBlank(Collapsed(s))
    ensures NoTab(s) ==> NoTab(Collapsed(s))
    ensures s != "" ==> Collapsed(s) != "" && Collapsed(s)[0] == s[0]
    decreases |s|
  {
    if |s| >= 2 {
      CollapsedShape(s[1..]);
    }
  }

  lemma TrimmedIsTidy(s: string)
    ensures Tidy(Trimmed(s))
  {
    var a := TabsToBlanks(s);
    var b := Collapsed(a);
    CollapsedShape(a);
    var c := WithoutFirstBlank(b);
    assert c != "" ==> c[0] != ' ';
  }

  /** In tidy text a blank stands between two words. */
  lemma TidyBlank(cur: string, s: string)
    requires Tidy(cur + s) && s != "" && IsBlank(s[0])
    ensures cur != "" && |s| > 1 && s[0] == ' ' && !IsBlank(s[1]) && Tidy(s[1..])
  {
    var t, n := cur + s, |cur|;
    assert forall i :: 0 <= i < |s| ==> t[n + i] == s[i];
    assert forall i :: 0 <= i < |s| - 1 ==> s[1..][i] == t[n + 1 + i];
  }

  lemma JoinFirst(cur: string, ws: seq<string>)
    requires ws != []
    ensures JoinWords([cur] + ws) == cur + " " + JoinWords(ws)
  {
    assert ([cur] + ws)[1..] == ws;
  }

  lemma TidyBetweenWords(s: string, cur: string)
    requires Tidy(cur + s) && s != "" && IsBlank(s[0])
    requires JoinWords(Words(s[1..])) == s[1..]
    ensures JoinWords(WordsFrom(s, cur)) == cur + s
  {
    TidyBlank(cur, s);
    WordsNotEmpty(s[1..], "");
    JoinFirst(cur, Words(s[1..]));
    assert cur + s == cur + " " + s[1..];
  }

  lemma {:induction false} TidyIsItsWords(s: string, cur: string)
    requires Tidy(cur + s) && forall i :: 0 <= i < |cur| ==> !IsBlank(cur[i])
    ensures JoinWords(WordsFrom(s, cur)) == cur + s
    decreases |s|
  {
    if s == "" {
      assert cur + s == cur;
    } else if IsBlank(s[0]) {
      TidyBlank(cur, s);
      assert "" + s[1..] == s[1..];
      TidyIsItsWords(s[1..], "");
      TidyBetweenWords(s, cur);
    } else {
      assert cur + [s[0]] + s[1..] == cur + s;
      TidyIsItsWords(s[1..], cur + [s[0]]);
    }
  }

  lemma {:induction false} WordsNotEmpty(s: string, cur: string)
    requires cur != "" || (s != "" && !IsBlank(s[0]))
    ensures WordsFrom(s, cur) != []
    decreases |s|
  {
    if s != "" && !IsBlank(s[0]) {
      WordsNotEmpty(s[1..], cur + [s[0]]);
    }
  }

  /** `Trim` is: take the words, put one blank between them. */
  lemma TrimmedJoinsTheWords(s: string)
    ensures Trimmed(s) == JoinWords(Words(s))
  {
    TrimmedIsTidy(s);
    WordsOfTrimmed(s);
    assert "" + Trimmed(s) == Trimmed(s);
    TidyIsItsWords(Trimmed(s), "");
  }

  lemma TrimmedTwice(s: string)
    ensures Trimmed(Trimmed(s)) == Trimmed(s)
  {
    TrimmedJoinsTheWords(s);
    TrimmedJoinsTheWords(Trimmed(s));
    WordsOfTrimmed(s);
  }

  // ---------- brackets and quotes ----------

  /** How a prefix stands: a bracket closed too often, or so many open and within quotes or not. */
  datatype Scan = Bad | Balance(depth: nat, quoted: bool)

  const START := Balance(0, false)

  function ScanStep(st: Scan, c: char): Scan {
    if st == Bad then Bad
    else if c == '"' then st.(quoted := !st.quoted)
    else if st.quoted then st
    else if c == '}' then (if st.depth == 0 then Bad else st.(depth := st.depth - 1))
    else if c == '{' then st.(depth := st.depth + 1)
    else st
  }

  function ScanAll(s: string, st: Scan): Scan {
    if s == "" then st else ScanAll(s[1..], ScanStep(st, s[0]))
  }

  function Verdict(st: Scan): nat {
    if st == Bad then 1 else if st.depth > 0 then 2 else if st.quoted then 3 else 0
  }

  lemma {:induction false} ScanAppend(a: string, b: string, st: Scan)
    ensures ScanAll(a + b, st) == ScanAll(b, ScanAll(a, st))
    decreases |a|
  {
    if a == "" {
      assert a + b == b;
    } else {
      assert (a + b)[1..] == a[1..] + b;
      ScanAppend(a[1..], b, ScanStep(st, a[0]));
    }
  }

  lemma {:induction false} BadStaysBad(s: string)
    ensures ScanAll(s, Bad) == Bad
    decreases |s|
  {
    if s != "" {
      BadStaysBad(s[1..]);
    }
  }

  /** `SmartSplitCheckSubStr`, with the source's three counters. */
  method CheckSubStr(str: string) returns (check: nat)
    ensures check == Verdict(ScanAll(str, START))
  {
    var closing, opening, quotes := 0, 0, 0;
    for k := 0 to |str|
      invariant 0 <= closing <= opening && quotes >= 0
      invariant ScanAll(str[k..], Balance(opening - closing, quotes % 2 != 0)) == ScanAll(str, START)
    {
      var c := str[k];
      assert str[k..][0] == c && str[k..][1..] == str[k + 1..];
      if c == '"' {
        quotes := quotes + 1;
      } else if c == '}' && quotes % 2 == 0 {
        if opening == closing {
          BadStaysBad(str[k + 1..]);
          return 1;
        }
        closing := closing + 1;
      } else if c == '{' && quotes % 2 == 0 {
        opening := opening + 1;
      }
    }
    if closing < opening {
      return 2;
    } else if quotes % 2 != 0 {
      return 3;
    }
    check := 0;
  }

  // ---------- the check, by counting ----------

  /** How many quotes stand before position `i`. */
  function Quotes(s: string, i: nat): nat
    requires i <= |s|
  {
    if i == 0 then 0 else Quotes(s, i - 1) + if s[i - 1] == '"' then 1 else 0
  }

  /** How many of this brace stand before position `i`, each behind an even number of quotes. */
  function Braces(s: string, brace: char, i: nat): nat
    requires i <= |s|
  {
    if i == 0 then 0
    else Braces(s, brace, i - 1) + if s[i - 1] == brace && Quotes(s, i - 1) % 2 == 0 then 1 else 0
  }

  /** At `i` a brace outside quotes closes what was not opened. */
  predicate ClosesTooMuch(s: string, i: nat) {
    i < |s| && s[i] == '}' && Quotes(s, i) % 2 == 0 && Braces(s, '{', i) <= Braces(s, '}', i)
  }

  function Counted(s: string, i: nat): Scan
    requires i <= |s| && Braces(s, '}', i) <= Braces(s, '{', i)
  {
    Balance(Braces(s, '{', i) - Braces(s, '}', i), Quotes(s, i) % 2 != 0)
  }

  lemma ScanOneMore(s: string, i: nat)
    requires 0 < i <= |s|
    ensures ScanAll(s[..i], START) == ScanStep(ScanAll(s[..i - 1], START), s[i - 1])
  {
    assert s[..i] == s[..i - 1] + [s[i - 1]];
    ScanAppend(s[..i - 1], [s[i - 1]], START);
    assert [s[i - 1]][1..] == "";
  }

  /** As long as nothing closes too much the scan stands where the counts say; once something does it is bad. */
  lemma {:induction false} ScanCounts(s: string, i: nat)
    requires i <= |s|
    ensures if exists k :: 0 <= k < i && ClosesTooMuch(s, k) then ScanAll(s[..i], START) == Bad
            else Braces(s, '}', i) <= Braces(s, '{', i) && ScanAll(s[..i], START) == Counted(s, i)
  {
    if i > 0 {
      ScanCounts(s, i - 1);
      ScanOneMore(s, i);
      if exists k :: 0 <= k < i - 1 && ClosesTooMuch(s, k) {
        var k :| 0 <= k < i - 1 && ClosesTooMuch(s, k);
      } else {
        CountOneMore(s, i);
      }
    }
  }

  lemma CountOneMore(s: string, i: nat)
    requires 0 < i <= |s| && Braces(s, '}', i - 1) <= Braces(s, '{', i - 1)
    ensures if ClosesTooMuch(s, i - 1) then ScanStep(Counted(s, i - 1), s[i - 1]) == Bad
            else Braces(s, '}', i) <= Braces(s, '{', i) && ScanStep(Counted(s, i - 1), s[i - 1]) == Counted(s, i)
  {
  }

  /**
   The verdict: 1 if somewhere outside quotes a brace closes what was not opened, else 2 if
   a brace is left open, else 3 if a quote is, else 0.
   */
  lemma CheckCounts(s: string)
    ensures Verdict(ScanAll(s, START))
            == if exists k :: 0 <= k < |s| && ClosesTooMuch(s, k) then 1
               else if Braces(s, '}', |s|) < Braces(s, '{', |s|) then 2
               else if Quotes(s, |s|) % 2 != 0 then 3
               else 0
  {
    ScanCounts(s, |s|);
    assert s[..|s|] == s;
  }

  lemma {:induction false} ScanOfTabsToBlanks(s: string, st: Scan)
    ensures ScanAll(TabsToBlanks(s), st) == ScanAll(s, st)
    decreases |s|
  {
    if s != "" {
      assert TabsToBlanks(s)[1..] == TabsToBlanks(s[1..]);
      ScanOfTabsToBlanks(s[1..], ScanStep(st, s[0]));
    }
  }

  lemma {:induction false} ScanOfCollapsed(s: string, st: Scan)
    ensures ScanAll(Collapsed(s), st) == ScanAll(s, st)
    decreases |s|
  {
    if |s| >= 2 {
      ScanOfCollapsed(s[1..], ScanStep(st, s[0]));
      if !(s[0] == ' ' && s[1] == ' ') {
        assert ([s[0]] + Collapsed(s[1..]))[1..] == Collapsed(s[1..]);
      }
    }
  }

  /** Trimming never changes what the check says. */
  lemma ScanOfTrimmed(s: string)
    ensures ScanAll(Trimmed(s), START) == ScanAll(s, START)
  {
    var a := TabsToBlanks(s);
    var b := Collapsed(a);
    var c := WithoutFirstBlank(b);
    ScanOfTabsToBlanks(s, START);
    ScanOfCollapsed(a, START);
    if c != "" && c[|c| - 1] == ' ' {
      assert c == c[..|c| - 1] + " ";
      ScanAppend(c[..|c| - 1], " ", START);
      assert " "[1..] == "";
    }
  }
}
