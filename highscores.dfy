/** The high-score table: the qualification check, the insertion that appends,
    sorts and truncates, and the tolerant reader and the writer of the
    `name,score` file. */
module HighScores {
  import opened Options
  import opened Text

  datatype Entry = Entry(name: string, score: int)

  const MaxHiscores: nat := 3

  /** What a missing file is replaced by. */
  const DefaultTable: seq<Entry> := [Entry("AAA", 0), Entry("BBB", 0), Entry("CCC", 0)]

  predicate SortedDesc(t: seq<Entry>) {
    forall i, j :: 0 <= i < j < |t| ==> t[i].score >= t[j].score
  }

  /** A name the file format carries unchanged: no comma, no newline and no
      surrounding whitespace. */
  predicate StorableName(name: string) {
    ',' !in name && '\n' !in name && Trimmed(name)
  }

  predicate NamesStorable(t: seq<Entry>) {
    forall i :: 0 <= i < |t| ==> StorableName(t[i].name)
  }

  /** The tables the game ever holds. */
  predicate ValidTable(t: seq<Entry>) {
    |t| <= MaxHiscores && SortedDesc(t) && NamesStorable(t)
  }

  function Take(t: seq<Entry>, n: nat): (r: seq<Entry>)
    ensures |r| == if |t| < n then |t| else n
    ensures r == t[..|r|]
  {
    if |t| <= n then t else t[..n]
  }

  /** Places `e` after every entry scoring at least as much; the order of the
      others is kept. */
  function InsertDesc(t: seq<Entry>, e: Entry): (r: seq<Entry>)
    ensures multiset(r) == multiset(t) + multiset{e}
  {
    if |t| == 0 then [e]
    else if t[0].score >= e.score then
      assert t == [t[0]] + t[1..];
      [t[0]] + InsertDesc(t[1..], e)
    else
      assert t == [t[0]] + t[1..];
      [e] + t
  }

  lemma {:induction false} InsertDescSorted(t: seq<Entry>, e: Entry)
    requires SortedDesc(t)
    ensures SortedDesc(InsertDesc(t, e))
  {
    if |t| > 0 && t[0].score >= e.score {
      var rest := InsertDesc(t[1..], e);
      InsertDescSorted(t[1..], e);
      forall x | x in rest
        ensures t[0].score >= x.score
      {
        assert x in multiset(rest);
        assert x in multiset(t[1..]) || x == e;
      }
      assert InsertDesc(t, e) == [t[0]] + rest;
    }
  }

  /** `sorted(..., key=score, reverse=True)` with CPython's stable sort, so
      entries with equal scores keep their order. */
  function SortDesc(t: seq<Entry>): (r: seq<Entry>)
    ensures multiset(r) == multiset(t)
    ensures SortedDesc(r)
  {
    if |t| == 0 then []
    else
      assert t == t[..|t| - 1] + [t[|t| - 1]];
      var p := SortDesc(t[..|t| - 1]);
      InsertDescSorted(p, t[|t| - 1]);
      InsertDesc(p, t[|t| - 1])
  }

  /** The entries scoring exactly `v`, in table order. */
  function WithScore(t: seq<Entry>, v: int): seq<Entry> {
    if |t| == 0 then [] else (if t[0].score == v then [t[0]] else []) + WithScore(t[1..], v)
  }

  lemma WithScoreCons(x: Entry, r: seq<Entry>, v: int)
    ensures WithScore([x] + r, v) == (if x.score == v then [x] else []) + WithScore(r, v)
  {
    assert ([x] + r)[1..] == r;
  }

  lemma WithScoreOne(x: Entry, v: int)
    ensures WithScore([x], v) == if x.score == v then [x] else []
  {
    assert [x][1..] == [];
  }

  lemma ConcatAssoc(a: seq<Entry>, b: seq<Entry>, c: seq<Entry>)
    ensures a + (b + c) == (a + b) + c
  {
  }

  lemma {:induction false} WithScoreAppend(a: seq<Entry>, b: seq<Entry>, v: int)
    ensures WithScore(a + b, v) == WithScore(a, v) + WithScore(b, v)
  {
    if |a| > 0 {
      var h: seq<Entry> := if a[0].score == v then [a[0]] else [];
      assert a + b == [a[0]] + (a[1..] + b);
      WithScoreCons(a[0], a[1..] + b, v);
      WithScoreAppend(a[1..], b, v);
      assert WithScore(a, v) == h + WithScore(a[1..], v);
      ConcatAssoc(h, WithScore(a[1..], v), WithScore(b, v));
    } else {
      assert a + b == b;
    }
  }

  lemma {:induction false} WithScoreNone(t: seq<Entry>, v: int)
    requires forall i :: 0 <= i < |t| ==> t[i].score < v
    ensures WithScore(t, v) == []
  {
    if |t| > 0 {
      WithScoreNone(t[1..], v);
    }
  }

  /** Inserting into a descending table puts the new entry after every entry
      of the same score, and moves no other entry among those of its score. */
  lemma {:induction false} InsertDescStable(t: seq<Entry>, e: Entry, v: int)
    requires SortedDesc(t)
    ensures WithScore(InsertDesc(t, e), v) == WithScore(t, v) + (if e.score == v then [e] else [])
  {
    var tail: seq<Entry> := if e.score == v then [e] else [];
    if |t| == 0 {
      assert InsertDesc(t, e) == [e];
      WithScoreOne(e, v);
    } else {
      var u := t[1..];
      assert t == [t[0]] + u;
      WithScoreCons(t[0], u, v);
      if t[0].score >= e.score {
        var rest := InsertDesc(u, e);
        assert InsertDesc(t, e) == [t[0]] + rest;
        WithScoreCons(t[0], rest, v);
        assert SortedDesc(u) by {
          forall i, j | 0 <= i < j < |u| ensures u[i].score >= u[j].score {
            assert u[i] == t[i + 1] && u[j] == t[j + 1];
          }
        }
        InsertDescStable(u, e, v);
        var h: seq<Entry> := if t[0].score == v then [t[0]] else [];
        assert WithScore(InsertDesc(t, e), v) == h + (WithScore(u, v) + tail);
        ConcatAssoc(h, WithScore(u, v), tail);
      } else {
        assert InsertDesc(t, e) == [e] + t;
        WithScoreCons(e, t, v);
        if e.score == v {
          forall i | 0 <= i < |t| ensures t[i].score < v {
            assert i == 0 || t[0].score >= t[i].score;
          }
          WithScoreNone(t, v);
        }
      }
    }
  }

  /** The sort is stable, as CPython's is: for every score, the entries with
      that score come out in the order they went in, so a three-entry cut
      keeps the earliest of tied entries. */
  lemma {:induction false} SortDescStable(t: seq<Entry>, v: int)
    ensures WithScore(SortDesc(t), v) == WithScore(t, v)
  {
    if |t| > 0 {
      var p := t[..|t| - 1];
      var e := t[|t| - 1];
      assert t == p + [e];
      WithScoreAppend(p, [e], v);
      SortDescStable(p, v);
      InsertDescStable(SortDesc(p), e, v);
      var q := SortDesc(p);
      assert SortDesc(t) == InsertDesc(q, e);
      WithScoreOne(e, v);
    }
  }

  lemma {:induction false} InsertDescAtEnd(t: seq<Entry>, e: Entry)
    requires forall i :: 0 <= i < |t| ==> t[i].score >= e.score
    ensures InsertDesc(t, e) == t + [e]
  {
    if |t| > 0 {
      InsertDescAtEnd(t[1..], e);
      assert [t[0]] + (t[1..] + [e]) == t + [e];
    }
  }

  /** Sorting a table that is already in descending order leaves it as it is. */
  lemma {:induction false} SortDescSorted(t: seq<Entry>)
    requires SortedDesc(t)
    ensures SortDesc(t) == t
  {
    if |t| > 0 {
      var p := t[..|t| - 1];
      SortDescSorted(p);
      InsertDescAtEnd(p, t[|t| - 1]);
      assert p + [t[|t| - 1]] == t;
    }
  }

  /** The first index whose score is strictly below `s`, or the length when
      there is none. */
  function Rank(t: seq<Entry>, s: int): (k: nat)
    ensures k <= |t|
    ensures forall j :: 0 <= j < k ==> t[j].score >= s
    ensures k < |t| ==> t[k].score < s
  {
    if |t| == 0 || t[0].score < s then 0 else 1 + Rank(t[1..], s)
  }

  /** The insertion puts the new entry at its rank. */
  lemma {:induction false} InsertDescAtRank(t: seq<Entry>, e: Entry)
    ensures InsertDesc(t, e) == t[..Rank(t, e.score)] + [e] + t[Rank(t, e.score)..]
  {
    if |t| == 0 {
      assert InsertDesc(t, e) == [e];
    } else if t[0].score >= e.score {
      var u := t[1..];
      InsertDescAtRank(u, e);
      var k := Rank(u, e.score);
      assert Rank(t, e.score) == k + 1;
      assert InsertDesc(t, e) == [t[0]] + InsertDesc(u, e);
      SpliceCons(t, k, e);
    } else {
      assert Rank(t, e.score) == 0;
      assert InsertDesc(t, e) == [e] + t;
      assert t[..0] == [] && t[0..] == t;
    }
  }

  /** Splicing into the tail and then putting the head back is splicing one
      place further along. */
  lemma SpliceCons(t: seq<Entry>, k: nat, e: Entry)
    requires 0 < |t| && k <= |t| - 1
    ensures [t[0]] + (t[1..][..k] + [e] + t[1..][k..]) == t[..k + 1] + [e] + t[k + 1..]
  {
    assert t[..k + 1] == [t[0]] + t[1..][..k];
    assert t[k + 1..] == t[1..][k..];
  }

  /** `check_highscore`: a table with room left always takes the score, at the
      end; a full table takes it at the first entry it beats strictly, and
      refuses it (-1) when it beats none. */
  function CheckHighscore(t: seq<Entry>, score: int): (idx: int)
    ensures -1 <= idx <= |t|
    ensures |t| < MaxHiscores ==> idx == |t|
    ensures |t| >= MaxHiscores ==> idx < |t|
    ensures |t| >= MaxHiscores && idx >= 0 ==>
              score > t[idx].score && forall j :: 0 <= j < idx ==> score <= t[j].score
    ensures |t| >= MaxHiscores ==> (idx == -1 <==> forall j :: 0 <= j < |t| ==> score <= t[j].score)
  {
    if |t| < MaxHiscores then |t|
    else
      var k := Rank(t, score);
      if k < |t| then k else -1
  }

  /** `check_highscore` as the source runs it: the length when there is room,
      otherwise a scan for the first entry the score beats. */
  method CheckHighscoreIndex(t: seq<Entry>, score: int) returns (idx: int)
    ensures idx == CheckHighscore(t, score)
  {
    if |t| < MaxHiscores {
      return |t|;
    }
    var i := 0;
    while i < |t|
      invariant 0 <= i <= |t|
      invariant forall j :: 0 <= j < i ==> score <= t[j].score
    {
      if score > t[i].score {
        RankIsFirstBeaten(t, score, i);
        return i;
      }
      i := i + 1;
    }
    RankIsFirstBeaten(t, score, |t|);
    return -1;
  }

  /** The rank is the first index whose score is below `s`. */
  lemma {:induction false} RankIsFirstBeaten(t: seq<Entry>, s: int, i: nat)
    requires i <= |t| && forall j :: 0 <= j < i ==> s <= t[j].score
    requires i < |t| ==> s > t[i].score
    ensures Rank(t, s) == i
  {
    if i > 0 {
      RankIsFirstBeaten(t[1..], s, i - 1);
    }
  }

  /** Append, sort in descending order, keep the first three. */
  function Insert(t: seq<Entry>, e: Entry): seq<Entry> {
    Take(SortDesc(t + [e]), MaxHiscores)
  }

  /** Inserting a qualifying entry into a table the game holds: the result is
      the old table with the new entry placed after every entry scoring at
      least as much, cut to three; it is sorted, and the new entry is in it at
      that place, which for a full table is the index `check_highscore`
      returned. */
  lemma InsertQualifying(t: seq<Entry>, e: Entry)
    requires ValidTable(t) && CheckHighscore(t, e.score) >= 0
    ensures var k := Rank(t, e.score);
      && k < MaxHiscores
      && Insert(t, e) == Take(t[..k] + [e] + t[k..], MaxHiscores)
      && SortedDesc(Insert(t, e))
      && |Insert(t, e)| == (if |t| < MaxHiscores then |t| + 1 else MaxHiscores)
      && Insert(t, e)[k] == e
      && (|t| >= MaxHiscores ==> k == CheckHighscore(t, e.score))
  {
    InsertPlacement(t, e);
  }

  lemma InsertPlacement(t: seq<Entry>, e: Entry)
    requires SortedDesc(t)
    ensures Insert(t, e) == Take(t[..Rank(t, e.score)] + [e] + t[Rank(t, e.score)..], MaxHiscores)
  {
    var u := t + [e];
    assert u[..|u| - 1] == t;
    SortDescSorted(t);
    InsertDescAtRank(t, e);
  }

  /** The scores of a table, in order. */
  function Scores(t: seq<Entry>): (s: seq<int>)
    ensures |s| == |t| && forall i :: 0 <= i < |t| ==> s[i] == t[i].score
  {
    seq(|t|, i requires 0 <= i < |t| => t[i].score)
  }

  predicate DescendingInts(s: seq<int>) {
    forall i, j :: 0 <= i < j < |s| ==> s[i] >= s[j]
  }

  lemma ScoresRemove(b: seq<Entry>, k: int)
    requires 0 <= k < |b|
    ensures Scores(b)[..k] + Scores(b)[k + 1..] == Scores(b[..k] + b[k + 1..])
  {
    var sb := Scores(b);
    var c := b[..k] + b[k + 1..];
    forall i | 0 <= i < |c|
      ensures (sb[..k] + sb[k + 1..])[i] == Scores(c)[i]
    {
      if i < k {
        assert c[i] == b[i];
      } else {
        assert c[i] == b[i + 1];
      }
    }
  }

  /** Removing the element at `k` removes one occurrence of it. */
  lemma MultisetRemove<T>(b: seq<T>, k: int)
    requires 0 <= k < |b|
    ensures multiset(b) == multiset(b[..k] + b[k + 1..]) + multiset{b[k]}
  {
    assert b == b[..k] + [b[k]] + b[k + 1..];
  }

  lemma MultisetCancel<T>(a: multiset<T>, b: multiset<T>, x: T)
    requires a + multiset{x} == b + multiset{x}
    ensures a == b
  {
    forall o
      ensures a[o] == b[o]
    {
      assert (a + multiset{x})[o] == (b + multiset{x})[o];
    }
  }

  lemma MultisetTail<T>(b: seq<T>)
    requires |b| > 0
    ensures multiset(b) == multiset(b[1..]) + multiset{b[0]}
  {
    assert b == [b[0]] + b[1..];
  }

  /** Tables holding the same entries hold the same scores. */
  lemma {:induction false} ScoresMultiset(a: seq<Entry>, b: seq<Entry>)
    requires multiset(a) == multiset(b)
    ensures multiset(Scores(a)) == multiset(Scores(b))
    decreases |a|
  {
    if |a| == 0 {
      assert |b| == |multiset(b)| == 0;
    } else {
      var x := a[0];
      assert x in multiset(a);
      var k :| 0 <= k < |b| && b[k] == x;
      var b1 := b[..k] + b[k + 1..];
      MultisetTail(a);
      MultisetRemove(b, k);
      MultisetCancel(multiset(a[1..]), multiset(b1), x);
      ScoresMultiset(a[1..], b1);
      var sa := Scores(a);
      var sb := Scores(b);
      var ma := multiset(Scores(a[1..]));
      var mb := multiset(Scores(b1));
      MultisetTail(sa);
      assert sa[1..] == Scores(a[1..]);
      assert multiset(sa) == ma + multiset{x.score};
      MultisetRemove(sb, k);
      ScoresRemove(b, k);
      assert multiset(sb) == mb + multiset{x.score};
    }
  }

  /** A descending sequence of integers is determined by its elements. */
  lemma {:induction false} DescendingUnique(s1: seq<int>, s2: seq<int>)
    requires multiset(s1) == multiset(s2)
    requires DescendingInts(s1) && DescendingInts(s2)
    ensures s1 == s2
    decreases |s1|
  {
    assert |s1| == |multiset(s1)| == |multiset(s2)| == |s2|;
    if |s1| > 0 {
      assert s1[0] in multiset(s2) && s2[0] in multiset(s1);
      var j :| 0 <= j < |s2| && s2[j] == s1[0];
      var i :| 0 <= i < |s1| && s1[i] == s2[0];
      assert s1[0] == s2[0];
      MultisetTail(s1);
      MultisetTail(s2);
      MultisetCancel(multiset(s1[1..]), multiset(s2[1..]), s1[0]);
      assert DescendingInts(s1[1..]) && DescendingInts(s2[1..]);
      DescendingUnique(s1[1..], s2[1..]);
    }
  }

  /** Any two descending arrangements of the same entries show the same
      scores, whichever way their ties are ordered. */
  lemma SortedScoresUnique(r1: seq<Entry>, r2: seq<Entry>)
    requires multiset(r1) == multiset(r2) && SortedDesc(r1) && SortedDesc(r2)
    ensures Scores(r1) == Scores(r2)
  {
    ScoresMultiset(r1, r2);
    DescendingUnique(Scores(r1), Scores(r2));
  }

  /** Inserting with any descending sort, stable or not: cut to three, the
      table shows the scores `Insert` shows, position by position, holds only
      entries of the old table and the new one, and keeps a qualifying new
      entry. */
  lemma AnySortInsert(t: seq<Entry>, e: Entry, r: seq<Entry>)
    requires multiset(r) == multiset(t + [e]) && SortedDesc(r)
    ensures |Take(r, MaxHiscores)| == |Insert(t, e)|
    ensures forall i :: 0 <= i < |Insert(t, e)| ==> Take(r, MaxHiscores)[i].score == Insert(t, e)[i].score
    ensures forall x :: x in Take(r, MaxHiscores) ==> x in t + [e]
    ensures ValidTable(t) && CheckHighscore(t, e.score) >= 0 ==> e in Take(r, MaxHiscores)
  {
    var u := t + [e];
    var s := SortDesc(u);
    SortedScoresUnique(r, s);
    assert |r| == |s|;
    var c := Take(r, MaxHiscores);
    forall x | x in c
      ensures x in u
    {
      assert x in r;
      assert x in multiset(u);
    }
    if ValidTable(t) && CheckHighscore(t, e.score) >= 0 {
      assert e in multiset(r);
      if |t| >= MaxHiscores {
        QualifyingKept(t, e, r);
      }
    }
  }

  /** In a full table the entry that the cut drops scores lowest, so a new
      entry beating some old entry is not dropped. */
  lemma QualifyingKept(t: seq<Entry>, e: Entry, r: seq<Entry>)
    requires multiset(r) == multiset(t + [e]) && SortedDesc(r)
    requires |t| == MaxHiscores && CheckHighscore(t, e.score) >= 0
    ensures e in Take(r, MaxHiscores)
  {
    var idx := CheckHighscore(t, e.score);
    var y := t[idx];
    assert |r| == |multiset(t + [e])| == MaxHiscores + 1;
    assert y in multiset(t + [e]) && e in multiset(t + [e]);
    var p :| 0 <= p < |r| && r[p] == y;
    var j :| 0 <= j < |r| && r[j] == e;
    assert y.score < e.score && p != j;
    assert j < MaxHiscores;
    assert Take(r, MaxHiscores)[j] == e;
  }

  /** The qualification check agrees with the insertion: a table the game holds
      refuses a score exactly when inserting it would leave the table as it was. */
  lemma RefusedIffUnchanged(t: seq<Entry>, e: Entry)
    requires ValidTable(t)
    ensures CheckHighscore(t, e.score) == -1 <==> Insert(t, e) == t
  {
    InsertPlacement(t, e);
    var k := Rank(t, e.score);
    var r := Insert(t, e);
    if |t| < MaxHiscores {
      assert |r| == |t| + 1;
    } else if k < |t| {
      assert r[k] == e && t[k].score < e.score;
    } else {
      assert t[..k] + [e] + t[k..] == t + [e];
    }
  }

  /** Sorting and cutting a table keeps its names storable. */
  lemma SortTakeStorable(t: seq<Entry>)
    requires NamesStorable(t)
    ensures NamesStorable(Take(SortDesc(t), MaxHiscores))
  {
    var all := SortDesc(t);
    var r := Take(all, MaxHiscores);
    forall i | 0 <= i < |r|
      ensures StorableName(r[i].name)
    {
      assert r[i] == all[i];
      assert all[i] in multiset(all);
      assert all[i] in multiset(t);
    }
  }

  /** Inserting keeps a table one the game can hold. */
  lemma InsertValid(t: seq<Entry>, e: Entry)
    requires ValidTable(t) && StorableName(e.name)
    ensures ValidTable(Insert(t, e))
  {
    SortTakeStorable(t + [e]);
  }

  /** One line of the file: blank lines and lines that do not split into
      exactly two comma-separated fields are skipped; the name is stripped, and
      a score that is not an integer counts as 0. */
  function ParseLine(raw: string): Option<Entry> {
    var line := Strip(raw);
    if |line| == 0 then None
    else
      var parts := Split(line, ',');
      if |parts| != 2 then None
      else
        var s := match ParseInt(parts[1]) case Some(n) => n case None => 0;
        Some(Entry(Strip(parts[0]), s))
  }

  /** What the loader makes of any line, written or foreign: it is skipped
      exactly when it is blank after stripping or does not hold exactly one
      comma; otherwise the name is the stripped text before the comma and the
      score is `int()` of the text after it, or 0 where `int()` fails. */
  lemma ParseLineTolerant(raw: string)
    ensures ParseLine(raw).None? <==> Strip(raw) == "" || Occurrences(Strip(raw), ',') != 1
    ensures ParseLine(raw).Some? ==>
      var line := Strip(raw);
      exists k :: 0 <= k < |line| && line[k] == ','
        && ParseLine(raw).value.name == Strip(line[..k])
        && ParseLine(raw).value.score
             == (match ParseInt(line[k + 1..]) case Some(n) => n case None => 0)
  {
    var line := Strip(raw);
    if |line| > 0 {
      var parts := Split(line, ',');
      if |parts| == 2 {
        SplitOnce(line, ',');
      }
    }
  }

  /** The entries of the lines that parse, in file order. */
  function ParseLines(lines: seq<string>): seq<Entry> {
    if |lines| == 0 then []
    else
      var rest := ParseLines(lines[..|lines| - 1]);
      match ParseLine(lines[|lines| - 1])
      case Some(e) => rest + [e]
      case None => rest
  }

  /** The table `load_highscores` produces from the file's contents, or from
      nothing when the file is missing: always sorted, at most three entries,
      and the three placeholders when there is no file. */
  function LoadTable(file: Option<string>): (t: seq<Entry>)
    ensures SortedDesc(t) && |t| <= MaxHiscores
    ensures file.None? ==> t == DefaultTable
  {
    match file
    case None =>
      SortDescSorted(DefaultTable);
      Take(SortDesc(DefaultTable), MaxHiscores)
    case Some(content) => Take(SortDesc(ParseLines(Lines(content))), MaxHiscores)
  }

  /** Sorting and cutting the placeholders leaves them as they are. */
  lemma DefaultTableSorts()
    ensures Take(SortDesc(DefaultTable), MaxHiscores) == DefaultTable
  {
    assert LoadTable(None) == Take(SortDesc(DefaultTable), MaxHiscores);
  }

  /** `load_highscores`: reads the lines one by one into a list, then sorts it
      and keeps the first three. */
  method LoadHighscores(file: Option<string>) returns (t: seq<Entry>)
    ensures t == LoadTable(file)
  {
    match file {
      case None =>
        t := DefaultTable;
        assert LoadTable(file) == Take(SortDesc(t), MaxHiscores);
      case Some(content) =>
        var lines := Lines(content);
        t := [];
        var i := 0;
        while i < |lines|
          invariant 0 <= i <= |lines|
          invariant t == ParseLines(lines[..i])
        {
          assert lines[..i + 1][..i] == lines[..i];
          var entry := ParseLine(lines[i]);
          if entry.Some? {
            t := t + [entry.value];
          }
          i := i + 1;
        }
        assert lines[..i] == lines;
        assert LoadTable(file) == Take(SortDesc(t), MaxHiscores);
    }
    t := SortDesc(t);
    t := Take(t, MaxHiscores);
  }

  /** A line as the file yields it holds a newline at most at its end, and
      stripping removes that one. */
  lemma StripDropsNewline(raw: string)
    requires LineShaped(raw)
    ensures '\n' !in Strip(raw)
  {
    var t := TrimStart(raw);
    var line := TrimEnd(t);
    assert line == Strip(raw);
    assert IsSpace('\n');
    forall k | 0 <= k < |line|
      ensures line[k] != '\n'
    {
      assert line[k] == t[k] == raw[|raw| - |t| + k];
      assert k < |line| - 1 ==> |raw| - |t| + k < |raw| - 1;
    }
  }

  /** A parsed name never contains a comma, a newline or surrounding spaces. */
  lemma ParsedNamesStorable(raw: string)
    requires LineShaped(raw)
    ensures ParseLine(raw).Some? ==> StorableName(ParseLine(raw).value.name)
  {
    var line := Strip(raw);
    StripDropsNewline(raw);
    if |line| > 0 {
      var parts := Split(line, ',');
      if |parts| == 2 {
        var name := Strip(parts[0]);
        assert forall c :: c in parts[0] ==> c in line && c != ',';
        assert forall c :: c in name ==> c in parts[0];
        assert ',' !in name && '\n' !in name;
      }
    }
  }

  /** A line as the file yields it: a newline, if any, only at its end. */
  predicate LineShaped(l: string) {
    forall k :: 0 <= k < |l| - 1 ==> l[k] != '\n'
  }

  lemma {:induction false} ParseLinesStorable(lines: seq<string>)
    requires forall i :: 0 <= i < |lines| ==> LineShaped(lines[i])
    ensures NamesStorable(ParseLines(lines))
  {
    if |lines| > 0 {
      var init := lines[..|lines| - 1];
      var last := lines[|lines| - 1];
      assert forall i :: 0 <= i < |init| ==> init[i] == lines[i];
      ParseLinesStorable(init);
      ParsedNamesStorable(last);
      match ParseLine(last)
      case Some(e) =>
        assert ParseLines(lines) == ParseLines(init) + [e];
        StorableSnoc(ParseLines(init), e);
      case None =>
        assert ParseLines(lines) == ParseLines(init);
    }
  }

  lemma StorableSnoc(t: seq<Entry>, e: Entry)
    requires NamesStorable(t) && StorableName(e.name)
    ensures NamesStorable(t + [e])
  {
    assert forall i :: 0 <= i < |t| ==> (t + [e])[i] == t[i];
  }

  lemma DefaultTableValid()
    ensures ValidTable(DefaultTable)
  {
    assert !IsSpace('A') && !IsSpace('B') && !IsSpace('C');
    assert StorableName("AAA") && StorableName("BBB") && StorableName("CCC");
  }

  /** Whatever the file holds, the table loaded from it is one the game can hold. */
  lemma LoadedTableValid(file: Option<string>)
    ensures ValidTable(LoadTable(file))
  {
    if file.Some? {
      var lines := Lines(file.value);
      FileLinesShaped(file.value);
      ParseLinesStorable(lines);
      SortTakeStorable(ParseLines(lines));
      assert LoadTable(file) == Take(SortDesc(ParseLines(lines)), MaxHiscores);
    } else {
      DefaultTableValid();
    }
  }

  lemma FileLinesShaped(content: string)
    ensures forall i :: 0 <= i < |Lines(content)| ==> LineShaped(Lines(content)[i])
  {
    LinesBreaks(content);
  }

  /** One entry as `save_highscores` writes it. */
  function FormatEntry(e: Entry): string {
    e.name + "," + IntToString(e.score) + "\n"
  }

  /** The whole file for a table, one line per entry in table order. */
  function Serialize(t: seq<Entry>): (content: string)
    ensures |content| == 0 || content[|content| - 1] == '\n'
  {
    if |t| == 0 then "" else Serialize(t[..|t| - 1]) + FormatEntry(t[|t| - 1])
  }

  /** `save_highscores`: writes one `name,score` line per entry, overwriting
      the file. */
  method SaveHighscores(t: seq<Entry>) returns (content: string)
    ensures content == Serialize(t)
  {
    content := "";
    for i := 0 to |t|
      invariant content == Serialize(t[..i])
    {
      assert t[..i + 1][..i] == t[..i];
      content := content + FormatEntry(t[i]);
    }
    assert t[..|t|] == t;
  }

  lemma FormattedLineParses(e: Entry)
    requires StorableName(e.name)
    ensures ParseLine(FormatEntry(e)) == Some(e)
  {
    var digits := IntToString(e.score);
    var body := e.name + [','] + digits;
    assert FormatEntry(e) == body + ['\n'];
    assert body[|body| - 1] == digits[|digits| - 1];
    assert |e.name| > 0 ==> body[0] == e.name[0];
    assert |e.name| == 0 ==> body[0] == ',';
    StripTrailingSpace(body, '\n');
    SplitPair(e.name, digits, ',');
    StripTrimmed(e.name);
    ParseFormattedInt(e.score);
  }

  /** The file of one entry is read back as that one line. */
  lemma FormattedLine(e: Entry)
    requires StorableName(e.name)
    ensures Lines(FormatEntry(e)) == [FormatEntry(e)]
  {
    var body := e.name + "," + IntToString(e.score);
    assert FormatEntry(e) == body + "\n";
    assert '\n' !in body;
    LinesOfOneLine(body);
  }

  lemma ParseLinesSnoc(ls: seq<string>, line: string, e: Entry)
    requires ParseLine(line) == Some(e)
    ensures ParseLines(ls + [line]) == ParseLines(ls) + [e]
  {
    var all := ls + [line];
    assert all[..|all| - 1] == ls;
  }

  /** Each entry written adds exactly one line to the file. */
  lemma SerializedLines(p: seq<Entry>, e: Entry)
    requires StorableName(e.name)
    ensures Lines(Serialize(p + [e])) == Lines(Serialize(p)) + [FormatEntry(e)]
  {
    var t := p + [e];
    assert t[..|t| - 1] == p;
    assert Serialize(t) == Serialize(p) + FormatEntry(e);
    LinesAppend(Serialize(p), FormatEntry(e));
    FormattedLine(e);
  }

  lemma {:induction false} ParseSerialized(t: seq<Entry>)
    requires NamesStorable(t)
    ensures ParseLines(Lines(Serialize(t))) == t
  {
    if |t| > 0 {
      var p := t[..|t| - 1];
      var e := t[|t| - 1];
      assert p + [e] == t;
      assert NamesStorable(p);
      ParseSerialized(p);
      SerializedLines(p, e);
      FormattedLineParses(e);
      ParseLinesSnoc(Lines(Serialize(p)), FormatEntry(e), e);
    }
  }

  /** Saving a table the game holds and loading the file back gives the same
      table. */
  lemma SaveLoadRoundTrip(t: seq<Entry>)
    requires ValidTable(t)
    ensures LoadTable(Some(Serialize(t))) == t
  {
    ParseSerialized(t);
    SortDescSorted(t);
  }
}
