/**
 `StringUtils::SmartSplit` without `appendSearch`, for a separator of one character that is
 not a quote or a brace: it looks for the next separator and checks the whole piece grown
 so far again each time. One pass over the text finds the same pieces.
 */
module SmartSplitting {
  import opened Common
  import opened Trim

  /** A separator the check does not look at. */
  predicate Neutral(sep: char) {
    sep != '"' && sep != '{' && sep != '}'
  }

  // ---------- one pass ----------

  datatype Split = Split(pieces: seq<string>, rest: string)

  /** Cuts at the separators where no bracket or quote is open; `cur` is the piece begun, `st` how it stands. */
  function SplitFrom(s: string, cur: string, st: Scan, sep: char): Split
    decreases |s|
  {
    if s == "" then Split([], cur)
    else if s[0] == sep && st == START then
      var more := SplitFrom(s[1..], "", START, sep);
      Split([cur] + more.pieces, more.rest)
    else SplitFrom(s[1..], cur + [s[0]], ScanStep(st, s[0]), sep)
  }

  function OnePass(s: string, sep: char): Split {
    SplitFrom(s, "", START, sep)
  }

  function KeptPiece(piece: string): seq<string> {
    if Trimmed(piece) == "" then [] else [Trimmed(piece)]
  }

  /** What is put in the vector: the trimmed pieces, without the empty ones. */
  function Kept(pieces: seq<string>): seq<string> {
    if pieces == [] then []
    else KeptPiece(pieces[0]) + Kept(pieces[1..])
  }

  function Code(split: Split): nat {
    Verdict(ScanAll(split.rest, START))
  }

  function Vector(split: Split): seq<string> {
    Kept(split.pieces) + if Code(split) == 0 then Kept([split.rest]) else []
  }

  // ---------- the loop of the source ----------

  function Prepend(pieces: seq<string>, split: Split): Split {
    Split(pieces + split.pieces, split.rest)
  }

  lemma KeptCons(piece: string, pieces: seq<string>)
    ensures Kept([piece] + pieces) == KeptPiece(piece) + Kept(pieces)
  {
    assert ([piece] + pieces)[1..] == pieces;
  }

  lemma Reassociate(a: seq<string>, b: seq<string>, c: seq<string>)
    ensures (a + b) + c == a + (b + c)
  {
  }

  lemma {:induction false} KeptAppend(a: seq<string>, b: seq<string>)
    ensures Kept(a + b) == Kept(a) + Kept(b)
    decreases |a|
  {
    if a == [] {
      assert a + b == b;
    } else {
      var p, more := a[0], a[1..];
      assert a == [p] + more;
      KeptAppend(more, b);
      KeptCons(p, more);
      KeptCons(p, more + b);
      Reassociate([p], more, b);
      Reassociate(KeptPiece(p), Kept(more), Kept(b));
    }
  }

  /** Up to the next separator the piece only grows. */
  lemma {:induction false} PieceGrows(gap: string, s: string, cur: string, st: Scan, sep: char)
    requires forall i :: 0 <= i < |gap| ==> gap[i] != sep
    ensures SplitFrom(gap + s, cur, st, sep) == SplitFrom(s, cur + gap, ScanAll(gap, st), sep)
    decreases |gap|
  {
    if gap == "" {
      assert gap + s == s && cur + gap == cur;
    } else {
      assert (gap + s)[1..] == gap[1..] + s;
      PieceGrows(gap[1..], s, cur + [gap[0]], ScanStep(st, gap[0]), sep);
      assert cur + [gap[0]] + gap[1..] == cur + gap;
    }
  }

  lemma {:induction false} BadPieceIsLast(s: string, cur: string, sep: char)
    ensures SplitFrom(s, cur, Bad, sep) == Split([], cur + s)
    decreases |s|
  {
    if s == "" {
      assert cur + s == cur;
    } else {
      BadPieceIsLast(s[1..], cur + [s[0]], sep);
      assert cur + [s[0]] + s[1..] == cur + s;
    }
  }

  /** Where the loop stands: `pieces` cut, the current one begun at `prev`, everything before `pos` looked at. */
  ghost predicate Progress(str: string, sep: char, pieces: seq<string>, prev: nat, pos: nat) {
    && prev <= pos <= |str|
    && OnePass(str, sep) == Prepend(pieces, SplitFrom(str[pos..], str[prev..pos], ScanAll(str[prev..pos], START), sep))
  }

  /** The text in front of a separator joins the piece. */
  lemma UpToSeparator(str: string, sep: char, pieces: seq<string>, prev: nat, pos: nat, at: nat)
    requires Progress(str, sep, pieces, prev, pos)
    requires pos <= at < |str| && str[at] == sep && forall q :: pos <= q < at ==> str[q] != sep
    ensures OnePass(str, sep)
            == Prepend(pieces, SplitFrom([sep] + str[at + 1..], str[prev..at], ScanAll(str[prev..at], START), sep))
  {
    var gap := str[pos..at];
    assert str[pos..] == gap + ([sep] + str[at + 1..]);
    assert str[prev..pos] + gap == str[prev..at];
    ScanAppend(str[prev..pos], gap, START);
    PieceGrows(gap, [sep] + str[at + 1..], str[prev..pos], ScanAll(str[prev..pos], START), sep);
  }

  lemma CutHere(more: string, piece: string, sep: char, pieces: seq<string>)
    ensures Prepend(pieces, SplitFrom([sep] + more, piece, START, sep))
            == Prepend(pieces + [piece], SplitFrom(more, "", START, sep))
  {
    assert ([sep] + more)[1..] == more;
    var tail := SplitFrom(more, "", START, sep);
    assert pieces + ([piece] + tail.pieces) == (pieces + [piece]) + tail.pieces;
  }

  lemma GoOnHere(more: string, piece: string, sep: char)
    requires Neutral(sep) && ScanAll(piece, START) != START
    ensures SplitFrom([sep] + more, piece, ScanAll(piece, START), sep)
            == SplitFrom(more, piece + [sep], ScanAll(piece + [sep], START), sep)
  {
    assert ([sep] + more)[1..] == more;
    ScanAppend(piece, [sep], START);
    assert [sep][1..] == "";
  }

  lemma CutAt(str: string, prev: nat, at: nat)
    requires prev <= at < |str|
    ensures str[prev..at] + ([str[at]] + str[at + 1..]) == str[prev..]
    ensures str[prev..at] + [str[at]] == str[prev..at + 1]
  {
  }

  /** At a separator: the piece before it is complete, or hopeless, or goes on. */
  lemma AtSeparator(str: string, sep: char, pieces: seq<string>, prev: nat, pos: nat, at: nat)
    requires Neutral(sep) && Progress(str, sep, pieces, prev, pos)
    requires pos <= at < |str| && str[at] == sep && forall q :: pos <= q < at ==> str[q] != sep
    ensures var piece := str[prev..at];
            var st := ScanAll(piece, START);
            && (st == START ==> Progress(str, sep, pieces + [piece], at + 1, at + 1))
            && (st == Bad ==> OnePass(str, sep) == Split(pieces, str[prev..]))
            && (st != START && st != Bad ==> Progress(str, sep, pieces, prev, at + 1))
  {
    var piece, more := str[prev..at], str[at + 1..];
    var st := ScanAll(piece, START);
    UpToSeparator(str, sep, pieces, prev, pos, at);
    if st == Bad {
      BadPieceIsLast([sep] + more, piece, sep);
      CutAt(str, prev, at);
      assert pieces + [] == pieces;
    } else if st == START {
      CutHere(more, piece, sep, pieces);
      assert str[at + 1..at + 1] == "";
    } else {
      GoOnHere(more, piece, sep);
      CutAt(str, prev, at);
    }
  }

  /** No separator left: what remains is the last piece. */
  lemma AtEnd(str: string, sep: char, pieces: seq<string>, prev: nat, pos: nat)
    requires Progress(str, sep, pieces, prev, pos) && forall q :: pos <= q < |str| ==> str[q] != sep
    ensures OnePass(str, sep) == Split(pieces, str[prev..])
  {
    var gap := str[pos..];
    assert gap + "" == gap;
    PieceGrows(gap, "", str[prev..pos], ScanAll(str[prev..pos], START), sep);
    assert str[prev..pos] + gap == str[prev..];
    assert pieces + [] == pieces;
  }

  lemma FindChar(str: string, sep: char, from: nat)
    ensures var r := FindFrom(str, [sep], from);
            if r.Some? then r.value < |str| && str[r.value] == sep && forall q :: from <= q < r.value ==> str[q] != sep
            else forall q :: from <= q < |str| ==> str[q] != sep
  {
    var r := FindFrom(str, [sep], from);
    forall q: nat | q < |str|
      ensures OccursAt(str, [sep], q) <==> str[q] == sep
    {
      assert str[q..q + 1] == [str[q]];
    }
    if r.Some? {
      assert OccursAt(str, [sep], r.value);
    }
  }

  lemma VerdictZero(st: Scan)
    ensures Verdict(st) == 0 <==> st == START
    ensures Verdict(st) == 1 <==> st == Bad
  {
  }

  /** A piece is trimmed and checked, and put in the vector when it is balanced and not empty. */
  method Collect(vec: seq<string>, piece: string) returns (out: seq<string>, check: nat)
    ensures check == Verdict(ScanAll(piece, START))
    ensures check == 0 <==> ScanAll(piece, START) == START
    ensures check == 1 <==> ScanAll(piece, START) == Bad
    ensures out == vec + if check == 0 then Kept([piece]) else []
  {
    out := vec;
    var substr := TrimText(piece);
    check := CheckSubStr(substr);
    ScanOfTrimmed(piece);
    VerdictZero(ScanAll(piece, START));
    KeptOne(piece);
    if check == 0 && |substr| != 0 {
      out := out + [substr];
    }
  }

  predicate IsNext(str: string, sep: char, from: nat, pos: Option<nat>) {
    match pos
    case Some(at) => from <= at < |str| && str[at] == sep && forall q :: from <= q < at ==> str[q] != sep
    case None => forall q :: from <= q < |str| ==> str[q] != sep
  }

  /** `str.find(search, pos)` for one character. */
  method NextSeparator(str: string, sep: char, from: nat) returns (pos: Option<nat>)
    ensures IsNext(str, sep, from, pos)
  {
    FindChar(str, sep, from);
    pos := FindFrom(str, [sep], from);
  }

  /** `SmartSplit`. */
  method SmartSplit(vec: seq<string>, str: string, sep: char) returns (out: seq<string>, code: nat)
    requires Neutral(sep)
    ensures str == [sep] ==> out == vec + [str] && code == 0
    ensures str != [sep] ==> out == vec + Vector(OnePass(str, sep)) && code == Code(OnePass(str, sep))
  {
    out := vec;
    if |str| == 0 {
      EmptyText(vec, sep);
      return out, 0;
    } else if str == [sep] {
      code := CheckSubStr(str);
      assert [sep][1..] == "";
      if code == 0 {
        out := out + [str];
      }
      return;
    }
    out, code := SplitLoop(vec, str, sep);
  }

  lemma ProgressStarts(str: string, sep: char)
    ensures Progress(str, sep, [], 0, 0)
  {
    assert str[0..] == str && str[0..0] == "";
    var all := OnePass(str, sep);
    assert [] + all.pieces == all.pieces;
  }

  /** Where the loop of `SmartSplit` stands: everything before `from` is looked at. */
  ghost predicate IsAt(
      vec: seq<string>, out: seq<string>, str: string, sep: char, pieces: seq<string>, prev: nat, from: nat)
  {
    Progress(str, sep, pieces, prev, from) && out == vec + Kept(pieces)
  }

  ghost predicate IsDone(vec: seq<string>, out: seq<string>, str: string, sep: char, code: nat) {
    out == vec + Vector(OnePass(str, sep)) && code == Code(OnePass(str, sep))
  }

  /** One round of the loop: the piece up to the separator at `at`. */
  method Round(
      ghost vec: seq<string>, out: seq<string>, str: string, sep: char, ghost pieces: seq<string>, prev: nat,
      ghost from: nat, at: nat)
    returns (out': seq<string>, prev': nat, check: nat, ghost pieces': seq<string>)
    requires Neutral(sep) && IsAt(vec, out, str, sep, pieces, prev, from)
    requires IsNext(str, sep, from, Some(at))
    ensures at < |str|
    ensures check == 1 ==> IsDone(vec, out', str, sep, 1)
    ensures check != 1 ==> IsAt(vec, out', str, sep, pieces', prev', at + 1)
  {
    Inside(vec, out, str, sep, pieces, prev, from, at);
    out', check := Collect(out, str[prev..at]);
    prev', pieces' := prev, pieces;
    if check == 0 {
      RoundCuts(vec, out, str, sep, pieces, prev, from, at);
      pieces' := pieces + [str[prev..at]];
      prev' := at + 1;
    } else if check == 1 {
      RoundStops(vec, out, str, sep, pieces, prev, from, at);
    } else {
      RoundGoesOn(vec, out, str, sep, pieces, prev, from, at);
    }
  }

  lemma Inside(
      vec: seq<string>, out: seq<string>, str: string, sep: char, pieces: seq<string>, prev: nat, from: nat, at: nat)
    requires IsAt(vec, out, str, sep, pieces, prev, from) && IsNext(str, sep, from, Some(at))
    ensures prev <= at < |str| && out + [] == out
  {
  }

  lemma CutIsAt(
      vec: seq<string>, out: seq<string>, str: string, sep: char, pieces: seq<string>, piece: string, next: nat)
    requires out == vec + Kept(pieces) && Progress(str, sep, pieces + [piece], next, next)
    ensures IsAt(vec, out + Kept([piece]), str, sep, pieces + [piece], next, next)
  {
    KeptAppend(pieces, [piece]);
    assert (vec + Kept(pieces)) + Kept([piece]) == vec + (Kept(pieces) + Kept([piece]));
  }

  /** The piece is complete. */
  lemma RoundCuts(
      vec: seq<string>, out: seq<string>, str: string, sep: char, pieces: seq<string>, prev: nat, from: nat, at: nat)
    requires Neutral(sep) && IsAt(vec, out, str, sep, pieces, prev, from) && IsNext(str, sep, from, Some(at))
    requires prev <= at < |str| && ScanAll(str[prev..at], START) == START
    ensures var piece := str[prev..at];
            IsAt(vec, out + Kept([piece]), str, sep, pieces + [piece], at + 1, at + 1)
  {
    AtSeparator(str, sep, pieces, prev, from, at);
    CutIsAt(vec, out, str, sep, pieces, str[prev..at], at + 1);
  }

  /** The piece is hopeless. */
  lemma RoundStops(
      vec: seq<string>, out: seq<string>, str: string, sep: char, pieces: seq<string>, prev: nat, from: nat, at: nat)
    requires Neutral(sep) && IsAt(vec, out, str, sep, pieces, prev, from) && IsNext(str, sep, from, Some(at))
    requires prev <= at < |str| && ScanAll(str[prev..at], START) == Bad
    ensures IsDone(vec, out, str, sep, 1)
  {
    AtSeparator(str, sep, pieces, prev, from, at);
    StoppedShort(str, sep, pieces, prev, at);
  }

  /** The piece goes on. */
  lemma RoundGoesOn(
      vec: seq<string>, out: seq<string>, str: string, sep: char, pieces: seq<string>, prev: nat, from: nat, at: nat)
    requires Neutral(sep) && IsAt(vec, out, str, sep, pieces, prev, from) && IsNext(str, sep, from, Some(at))
    requires prev <= at < |str| && ScanAll(str[prev..at], START) !in {START, Bad}
    ensures IsAt(vec, out, str, sep, pieces, prev, at + 1)
  {
    AtSeparator(str, sep, pieces, prev, from, at);
  }

  lemma Begins(vec: seq<string>, str: string, sep: char)
    ensures IsAt(vec, vec, str, sep, [], 0, 0)
  {
    ProgressStarts(str, sep);
    assert vec + Kept([]) == vec;
  }

  /** The loop of `SmartSplit` and what follows it. */
  method SplitLoop(vec: seq<string>, str: string, sep: char) returns (out: seq<string>, code: nat)
    requires Neutral(sep)
    ensures IsDone(vec, out, str, sep, code)
  {
    out := vec;
    var prev: nat, from: nat := 0, 0;
    ghost var pieces: seq<string> := [];
    Begins(vec, str, sep);
    var pos := NextSeparator(str, sep, 0);
    while pos.Some?
      invariant IsAt(vec, out, str, sep, pieces, prev, from) && IsNext(str, sep, from, pos)
      decreases |str| - from
    {
      var check: nat;
      out, prev, check, pieces := Round(vec, out, str, sep, pieces, prev, from, pos.value);
      if check == 1 {
        return out, 1;
      }
      from := pos.value + 1;
      pos := NextSeparator(str, sep, from);
    }
    out, code := Finish(vec, out, str, sep, pieces, prev, from);
  }

  /** What remains behind the last separator. */
  method Finish(
      ghost vec: seq<string>, out: seq<string>, str: string, sep: char, ghost pieces: seq<string>, prev: nat,
      ghost from: nat)
    returns (out': seq<string>, code: nat)
    requires IsAt(vec, out, str, sep, pieces, prev, from) && IsNext(str, sep, from, None)
    ensures IsDone(vec, out', str, sep, code)
  {
    AtEnd(str, sep, pieces, prev, from);
    out', code := Collect(out, str[prev..]);
    VectorIs(vec, pieces, str[prev..]);
  }

  lemma VectorIs(vec: seq<string>, pieces: seq<string>, rest: string)
    ensures vec + Vector(Split(pieces, rest))
         == (vec + Kept(pieces)) + if Verdict(ScanAll(rest, START)) == 0 then Kept([rest]) else []
  {
  }

  lemma KeptOne(piece: string)
    ensures Kept([piece]) == if Trimmed(piece) == "" then [] else [Trimmed(piece)]
  {
    assert [piece][1..] == [];
  }

  lemma EmptyText(vec: seq<string>, sep: char)
    ensures vec + Vector(OnePass("", sep)) == vec && Code(OnePass("", sep)) == 0
  {
    KeptOne("");
  }

  lemma StoppedShort(str: string, sep: char, pieces: seq<string>, prev: nat, at: nat)
    requires prev <= at <= |str| && ScanAll(str[prev..at], START) == Bad
    requires OnePass(str, sep) == Split(pieces, str[prev..])
    ensures Code(OnePass(str, sep)) == 1 && Vector(OnePass(str, sep)) == Kept(pieces)
  {
    assert str[prev..] == str[prev..at] + str[at..];
    ScanAppend(str[prev..at], str[at..], START);
    BadStaysBad(str[at..]);
  }

  // ---------- what is put in the vector ----------

  /** The pieces with any word in them, their words put together with single blanks. */
  function Tidied(pieces: seq<string>): seq<string> {
    if pieces == [] then []
    else (if Words(pieces[0]) == [] then [] else [JoinWords(Words(pieces[0]))]) + Tidied(pieces[1..])
  }

  lemma {:induction false} KeptIsTidied(pieces: seq<string>)
    ensures Kept(pieces) == Tidied(pieces)
    decreases |pieces|
  {
    if pieces != [] {
      TrimmedJoinsTheWords(pieces[0]);
      WordsJoinToText(pieces[0]);
      KeptIsTidied(pieces[1..]);
    }
  }

  lemma WordsJoinToText(s: string)
    ensures JoinWords(Words(s)) == "" <==> Words(s) == []
  {
    WordsAreNotEmpty(s, "");
    if Words(s) != [] {
      assert Words(s)[0] != "";
    }
  }

  lemma {:induction false} WordsAreNotEmpty(s: string, cur: string)
    ensures "" !in WordsFrom(s, cur)
    decreases |s|
  {
    if s != "" {
      if IsBlank(s[0]) {
        WordsAreNotEmpty(s[1..], "");
      } else {
        WordsAreNotEmpty(s[1..], cur + [s[0]]);
      }
    }
  }

  /** The vector of the source: the tidied pieces, and the tidied rest when the check finds it balanced. */
  lemma VectorIsTidied(str: string, sep: char)
    ensures var all := OnePass(str, sep);
            Vector(all) == Tidied(all.pieces) + if Code(all) == 0 then Tidied([all.rest]) else []
  {
    KeptIsTidied(OnePass(str, sep).pieces);
    KeptIsTidied([OnePass(str, sep).rest]);
  }

  // ---------- what the pieces are ----------

  /** A separator outside all brackets and quotes of the text before it. */
  predicate IsCut(str: string, i: nat, sep: char) {
    i < |str| && str[i] == sep && ScanAll(str[..i], START) == START
  }

  /** The text cut at exactly those separators: the parts from `from` on, `i` being looked at. */
  function BetweenCuts(str: string, from: nat, i: nat, sep: char): seq<string>
    requires from <= i <= |str|
    decreases |str| - i
  {
    if i == |str| then [str[from..]]
    else if IsCut(str, i, sep) then [str[from..i]] + BetweenCuts(str, i + 1, i + 1, sep)
    else BetweenCuts(str, from, i + 1, sep)
  }

  lemma PrefixStep(str: string, i: nat)
    requires i < |str|
    ensures ScanAll(str[..i + 1], START) == ScanStep(ScanAll(str[..i], START), str[i])
  {
    assert str[..i + 1] == str[..i] + [str[i]];
    ScanAppend(str[..i], [str[i]], START);
    assert [str[i]][1..] == "";
  }

  /** The state a piece is scanned in is the state of the whole text so far. */
  lemma {:induction false} OnePassCutsThere(str: string, from: nat, i: nat, sep: char)
    requires Neutral(sep) && from <= i <= |str|
    ensures var split := SplitFrom(str[i..], str[from..i], ScanAll(str[..i], START), sep);
            split.pieces + [split.rest] == BetweenCuts(str, from, i, sep)
    decreases |str| - i
  {
    var st := ScanAll(str[..i], START);
    if i == |str| {
      assert str[i..] == "" && str[from..i] == str[from..];
      assert [] + [str[from..]] == [str[from..]];
    } else {
      assert str[i..][0] == str[i] && str[i..][1..] == str[i + 1..];
      PrefixStep(str, i);
      if IsCut(str, i, sep) {
        assert str[i + 1..i + 1] == "";
        OnePassCutsThere(str, i + 1, i + 1, sep);
        var more := SplitFrom(str[i + 1..], "", START, sep);
        assert [str[from..i]] + more.pieces + [more.rest] == [str[from..i]] + (more.pieces + [more.rest]);
      } else {
        assert str[from..i] + [str[i]] == str[from..i + 1];
        OnePassCutsThere(str, from, i + 1, sep);
      }
    }
  }

  /** The pieces and the rest are the parts between the separators that stand outside brackets and quotes. */
  lemma PiecesAreBetweenCuts(str: string, sep: char)
    requires Neutral(sep)
    ensures var split := OnePass(str, sep);
            split.pieces + [split.rest] == BetweenCuts(str, 0, 0, sep)
  {
    assert str[0..] == str && str[0..0] == "" && str[..0] == "";
    OnePassCutsThere(str, 0, 0, sep);
  }

  function JoinWith(parts: seq<string>, sep: char): string {
    if parts == [] then "" else if |parts| == 1 then parts[0] else parts[0] + [sep] + JoinWith(parts[1..], sep)
  }

  lemma {:induction false} BetweenCutsJoins(str: string, from: nat, i: nat, sep: char)
    requires from <= i <= |str|
    ensures BetweenCuts(str, from, i, sep) != [] && JoinWith(BetweenCuts(str, from, i, sep), sep) == str[from..]
    decreases |str| - i
  {
    if i < |str| {
      if IsCut(str, i, sep) {
        BetweenCutsJoins(str, i + 1, i + 1, sep);
        var more := BetweenCuts(str, i + 1, i + 1, sep);
        assert ([str[from..i]] + more)[1..] == more;
        assert str[from..i] + [sep] + str[i + 1..] == str[from..];
      } else {
        BetweenCutsJoins(str, from, i + 1, sep);
      }
    }
  }

  /**
   Nothing is lost: the untrimmed pieces and the rest, with the separator between them, are the
   text, whatever the code.
   */
  lemma PiecesJoinBack(str: string, sep: char)
    requires Neutral(sep)
    ensures var split := OnePass(str, sep); JoinWith(split.pieces + [split.rest], sep) == str
  {
    PiecesAreBetweenCuts(str, sep);
    BetweenCutsJoins(str, 0, 0, sep);
    assert str[0..] == str;
  }

  lemma {:induction false} RestStandsAsTheText(s: string, cur: string, st: Scan, sep: char)
    requires Neutral(sep) && ScanAll(cur, START) == st
    ensures ScanAll(SplitFrom(s, cur, st, sep).rest, START) == ScanAll(s, st)
    decreases |s|
  {
    if s != "" {
      if s[0] == sep && st == START {
        RestStandsAsTheText(s[1..], "", START, sep);
      } else {
        ScanAppend(cur, [s[0]], START);
        assert [s[0]][1..] == "";
        RestStandsAsTheText(s[1..], cur + [s[0]], ScanStep(st, s[0]), sep);
      }
    }
  }

  /** The returned code is the check of the whole text: 0 exactly when all its brackets and quotes are closed. */
  lemma CodeIsTheCheckOfTheText(str: string, sep: char)
    requires Neutral(sep)
    ensures Code(OnePass(str, sep)) == Verdict(ScanAll(str, START))
  {
    RestStandsAsTheText(str, "", START, sep);
  }

  /** Every piece is balanced by itself. */
  lemma {:induction false} PiecesAreBalanced(s: string, cur: string, st: Scan, sep: char)
    requires Neutral(sep) && ScanAll(cur, START) == st
    ensures forall p :: p in SplitFrom(s, cur, st, sep).pieces ==> ScanAll(p, START) == START
    decreases |s|
  {
    if s != "" {
      if s[0] == sep && st == START {
        PiecesAreBalanced(s[1..], "", START, sep);
      } else {
        ScanAppend(cur, [s[0]], START);
        assert [s[0]][1..] == "";
        PiecesAreBalanced(s[1..], cur + [s[0]], ScanStep(st, s[0]), sep);
      }
    }
  }
}
