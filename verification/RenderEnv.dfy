/** Reading and writing KEY=VALUE files (scripts/render_env.py). */
module EnvText {
  import opened Common

  // --- characters and lines ------------------------------------------------------------------------------

  /** Where Python's `splitlines` cuts. */
  predicate IsBreak(c: char) {
    var n := c as int;
    0x0A <= n <= 0x0D || 0x1C <= n <= 0x1E || n == 0x85 || n == 0x2028 || n == 0x2029
  }

  /** What Python's `strip` removes. */
  predicate IsSpace(c: char) {
    var n := c as int;
    || IsBreak(c) || n == 0x09 || n == 0x1F || n == 0x20 || n == 0xA0 || n == 0x1680 || 0x2000 <= n <= 0x200A
    || n == 0x202F || n == 0x205F || n == 0x3000
  }

  /** The characters that end a line, and those that are stripped. */
  lemma CharactersMean(c: char)
    ensures IsBreak(c) <==> c as int in {0x0A, 0x0B, 0x0C, 0x0D, 0x1C, 0x1D, 0x1E, 0x85, 0x2028, 0x2029}
    ensures IsSpace(c) <==> IsBreak(c) || 0x2000 <= c as int <= 0x200A
                            || c as int in {0x09, 0x1F, 0x20, 0xA0, 0x1680, 0x202F, 0x205F, 0x3000}
  {
  }

  predicate IsHead(c: char) { 'A' <= c <= 'Z' || 'a' <= c <= 'z' || c == '_' }

  predicate IsWord(c: char) { IsHead(c) || '0' <= c <= '9' }

  predicate OneLine(s: string) { forall i :: 0 <= i < |s| ==> !IsBreak(s[i]) }

  function SplitLines(text: string, line: string): seq<string> {
    if text == "" then (if line == "" then [] else [line])
    else if IsBreak(text[0]) then [line] + SplitLines(text[1..], "")
    else SplitLines(text[1..], line + [text[0]])
  }

  function Unlines(lines: seq<string>): string {
    if lines == [] then "" else lines[0] + "\n" + Unlines(lines[1..])
  }

  lemma {:induction false} SplitOne(line: string, rest: string, before: string)
    requires OneLine(line)
    ensures SplitLines(line + "\n" + rest, before) == [before + line] + SplitLines(rest, "")
    decreases line
  {
    var text := line + "\n" + rest;
    if line == "" {
      assert text[1..] == rest && before + line == before;
    } else {
      assert text[1..] == line[1..] + "\n" + rest;
      SplitOne(line[1..], rest, before + [line[0]]);
      assert before + [line[0]] + line[1..] == before + line;
    }
  }

  lemma {:induction false} SplitUnlines(lines: seq<string>)
    requires forall i :: 0 <= i < |lines| ==> OneLine(lines[i])
    ensures SplitLines(Unlines(lines), "") == lines
  {
    if lines != [] {
      SplitOne(lines[0], Unlines(lines[1..]), "");
      SplitUnlines(lines[1..]);
      assert "" + lines[0] == lines[0];
    }
  }

  lemma {:induction false} LinesAreSingle(text: string, line: string)
    requires OneLine(line)
    ensures forall i :: 0 <= i < |SplitLines(text, line)| ==> OneLine(SplitLines(text, line)[i])
    decreases text
  {
    if text != "" {
      if IsBreak(text[0]) { LinesAreSingle(text[1..], ""); } else { LinesAreSingle(text[1..], line + [text[0]]); }
    }
  }

  function TrimLeft(s: string): string {
    if s != "" && IsSpace(s[0]) then TrimLeft(s[1..]) else s
  }

  function TrimRight(s: string): string {
    if s != "" && IsSpace(Last(s)) then TrimRight(Front(s)) else s
  }

  function Strip(s: string): string { TrimRight(TrimLeft(s)) }

  predicate RightTrimmed(s: string) { s == "" || !IsSpace(Last(s)) }

  lemma {:induction false} TrimLeftSingle(s: string)
    requires OneLine(s)
    ensures OneLine(TrimLeft(s))
  {
    if s != "" && IsSpace(s[0]) { TrimLeftSingle(s[1..]); }
  }

  lemma {:induction false} TrimRightSingle(s: string)
    requires OneLine(s)
    ensures OneLine(TrimRight(s)) && RightTrimmed(TrimRight(s))
  {
    if s != "" && IsSpace(Last(s)) { TrimRightSingle(Front(s)); }
  }

  // --- pairs ---------------------------------------------------------------------------------------------

  /** A dictionary in insertion order. */
  type Dict = seq<(string, string)>

  function Get(d: Dict, k: string): Option<string> {
    if d == [] then None else if d[0].0 == k then Some(d[0].1) else Get(d[1..], k)
  }

  /** Assignment: a key that is there keeps its place. */
  function Put(d: Dict, k: string, v: string): Dict {
    if d == [] then [(k, v)] else if d[0].0 == k then [(k, v)] + d[1..] else [d[0]] + Put(d[1..], k, v)
  }

  predicate ValidKey(k: string) {
    k != "" && IsHead(k[0]) && forall i :: 0 <= i < |k| ==> IsWord(k[i])
  }

  predicate ValidPair(p: (string, string)) {
    ValidKey(p.0) && OneLine(p.1) && RightTrimmed(p.1)
  }

  predicate ValidPairs(d: Dict) { forall i :: 0 <= i < |d| ==> ValidPair(d[i]) }

  predicate Distinct(d: Dict) {
    d == [] || (Get(d[1..], d[0].0).None? && Distinct(d[1..]))
  }

  /** What a file can hold: each key once, keys that are names, values without line break or trailing space. */
  predicate Clean(d: Dict) { Distinct(d) && ValidPairs(d) }

  lemma {:induction false} GetPut(d: Dict, k: string, v: string, j: string)
    ensures Get(Put(d, k, v), j) == if j == k then Some(v) else Get(d, j)
  {
    if d != [] && d[0].0 != k {
      GetPut(d[1..], k, v, j);
      assert Put(d, k, v)[1..] == Put(d[1..], k, v);
    }
  }

  lemma {:induction false} PutClean(d: Dict, k: string, v: string)
    requires Clean(d) && ValidPair((k, v))
    ensures Clean(Put(d, k, v))
  {
    if d != [] {
      if d[0].0 == k {
        assert Put(d, k, v)[1..] == d[1..];
      } else {
        PutClean(d[1..], k, v);
        GetPut(d[1..], k, v, d[0].0);
        assert Put(d, k, v)[1..] == Put(d[1..], k, v);
      }
    }
  }

  /** A key that is new goes to the end. */
  lemma {:induction false} PutNew(d: Dict, k: string, v: string)
    requires Get(d, k).None?
    ensures Put(d, k, v) == d + [(k, v)]
  {
    if d != [] { PutNew(d[1..], k, v); }
  }

  /** Assigning the value that is there changes nothing. */
  lemma {:induction false} PutSame(d: Dict, k: string)
    requires Get(d, k).Some?
    ensures Put(d, k, Get(d, k).value) == d
  {
    if d[0].0 != k { PutSame(d[1..], k); }
  }

  // --- parse ---------------------------------------------------------------------------------------------

  datatype Line = Skipped | Pair(key: string, value: string) | Bad

  function UpToEquals(s: string): nat
    ensures UpToEquals(s) <= |s|
  {
    if s == "" || s[0] == '=' then 0 else 1 + UpToEquals(s[1..])
  }

  /** One raw line. A key has no `=`, so it ends at the first. */
  function ReadLine(raw: string): Line {
    var line := Strip(raw);
    if line == "" || line[0] == '#' then Skipped
    else
      var i := UpToEquals(line);
      if i < |line| && ValidKey(line[..i]) then Pair(line[..i], line[i + 1..]) else Bad
  }

  /** `None`: a line that is not KEY=VALUE. */
  function ParseLines(lines: seq<string>, d: Dict): Option<Dict> {
    if lines == [] then Some(d)
    else match ReadLine(lines[0])
      case Skipped => ParseLines(lines[1..], d)
      case Bad => None
      case Pair(k, v) => ParseLines(lines[1..], Put(d, k, v))
  }

  function Parsed(text: string): Option<Dict> { ParseLines(SplitLines(text, ""), []) }

  method Parse(text: string) returns (found: Option<Dict>)
    ensures found == Parsed(text)
    ensures found.Some? ==> Clean(found.value)
  {
    var lines := SplitLines(text, "");
    var out: Dict := [];
    LinesAreSingle(text, "");
    for n := 0 to |lines|
      invariant Clean(out) && ParseLines(lines[n..], out) == Parsed(text)
    {
      assert lines[n..][0] == lines[n] && lines[n..][1..] == lines[n + 1..];
      match ReadLine(lines[n])
      case Skipped =>
      case Bad => return None;
      case Pair(k, v) =>
        PairIsValid(lines[n]);
        PutClean(out, k, v);
        out := Put(out, k, v);
    }
    found := Some(out);
  }

  /** What a line gives is a valid pair. */
  lemma PairIsValid(raw: string)
    requires OneLine(raw) && ReadLine(raw).Pair?
    ensures ValidPair((ReadLine(raw).key, ReadLine(raw).value))
  {
    TrimLeftSingle(raw);
    TrimRightSingle(TrimLeft(raw));
    var line, v := Strip(raw), ReadLine(raw).value;
    if v != "" { assert Last(v) == Last(line); }
  }

  /** Every file that parses gives a clean dictionary. */
  lemma {:induction false} ParseGivesClean(lines: seq<string>, d: Dict)
    requires Clean(d) && forall i :: 0 <= i < |lines| ==> OneLine(lines[i])
    ensures ParseLines(lines, d).Some? ==> Clean(ParseLines(lines, d).value)
    decreases lines
  {
    if lines != [] {
      var l := ReadLine(lines[0]);
      if l.Pair? {
        PairIsValid(lines[0]);
        PutClean(d, l.key, l.value);
        ParseGivesClean(lines[1..], Put(d, l.key, l.value));
      } else if l.Skipped? {
        ParseGivesClean(lines[1..], d);
      }
    }
  }

  lemma ParsedIsClean(text: string)
    ensures Parsed(text).Some? ==> Clean(Parsed(text).value)
  {
    LinesAreSingle(text, "");
    ParseGivesClean(SplitLines(text, ""), []);
  }

  // --- what a line gives, without the functions above ------------------------------------------------------

  ghost predicate AllSpace(s: string) { forall i | 0 <= i < |s| :: IsSpace(s[i]) }

  lemma {:induction false} TrimLeftMeans(s: string) returns (left: string)
    ensures s == left + TrimLeft(s) && AllSpace(left) && (TrimLeft(s) != "" ==> !IsSpace(TrimLeft(s)[0]))
  {
    left := "";
    if s != "" && IsSpace(s[0]) {
      var rest := TrimLeftMeans(s[1..]);
      left := [s[0]] + rest;
      assert s == [s[0]] + s[1..];
    }
  }

  lemma {:induction false} TrimRightMeans(s: string) returns (right: string)
    ensures s == TrimRight(s) + right && AllSpace(right) && RightTrimmed(TrimRight(s))
    ensures TrimRight(s) != "" ==> s != "" && TrimRight(s)[0] == s[0]
  {
    right := "";
    if s != "" && IsSpace(Last(s)) {
      var rest := TrimRightMeans(Front(s));
      right := rest + [Last(s)];
      assert s == Front(s) + [Last(s)];
    }
  }

  /** Stripping takes the spaces off both ends and nothing else. */
  lemma StripMeans(s: string) returns (left: string, right: string)
    ensures s == left + Strip(s) + right && AllSpace(left) && AllSpace(right)
    ensures Strip(s) != "" ==> !IsSpace(Strip(s)[0]) && !IsSpace(Strip(s)[|Strip(s)| - 1])
  {
    left := TrimLeftMeans(s);
    right := TrimRightMeans(TrimLeft(s));
  }

  /** A name: a letter or `_`, then letters, digits and `_`. */
  ghost predicate IsName(k: string) {
    && k != "" && !('0' <= k[0] <= '9')
    && forall i | 0 <= i < |k| :: k[i] == '_' || 'A' <= k[i] <= 'Z' || 'a' <= k[i] <= 'z' || '0' <= k[i] <= '9'
  }

  /** A line gives a pair exactly if, stripped, it is a name, `=` and the value; it is skipped if it is blank or a
      comment, and everything else is an error. */
  lemma ReadLineMeans(raw: string, k: string, v: string)
    ensures ReadLine(raw) == Pair(k, v) <==> IsName(k) && Strip(raw) == k + "=" + v
    ensures ReadLine(raw) == Skipped <==> Strip(raw) == "" || Strip(raw)[0] == '#'
  {
    var line := Strip(raw);
    if IsName(k) && line == k + "=" + v {
      assert line[0] == k[0];
      FirstEquals(k, v);
      assert line[..|k|] == k && line[|k| + 1..] == v;
    }
    if ReadLine(raw) == Pair(k, v) {
      EqualsThere(line);
      var i := UpToEquals(line);
      assert line == line[..i] + "=" + line[i + 1..];
    }
  }

  lemma {:induction false} EqualsThere(s: string)
    ensures UpToEquals(s) < |s| ==> s[UpToEquals(s)] == '='
  {
    if s != "" && s[0] != '=' { EqualsThere(s[1..]); }
  }

  // --- print ---------------------------------------------------------------------------------------------

  function LineOf(p: (string, string)): string { p.0 + "=" + p.1 }

  function LinesOf(d: Dict): seq<string> {
    if d == [] then [] else [LineOf(d[0])] + LinesOf(d[1..])
  }

  const WARNING := "# Not tracked by git. It holds secrets."

  function Body(header: string, d: Dict): string { Unlines([header, WARNING] + LinesOf(d)) }

  lemma {:induction false} FirstEquals(k: string, v: string)
    requires forall i :: 0 <= i < |k| ==> IsWord(k[i])
    ensures UpToEquals(k + "=" + v) == |k|
  {
    if k != "" {
      assert (k + "=" + v)[1..] == k[1..] + "=" + v;
      FirstEquals(k[1..], v);
    }
  }

  /** A printed pair is one line that reads back as the pair. */
  lemma LineReadsBack(p: (string, string))
    requires ValidPair(p)
    ensures OneLine(LineOf(p)) && ReadLine(LineOf(p)) == Pair(p.0, p.1)
  {
    var line := LineOf(p);
    assert line[0] == p.0[0];
    assert Last(line) == if p.1 == "" then '=' else Last(p.1);
    assert Strip(line) == line;
    FirstEquals(p.0, p.1);
    assert line[..|p.0|] == p.0 && line[|p.0| + 1..] == p.1;
  }

  lemma {:induction false} LinesAreOneLine(d: Dict)
    requires ValidPairs(d)
    ensures forall i :: 0 <= i < |LinesOf(d)| ==> OneLine(LinesOf(d)[i])
  {
    if d != [] {
      LineReadsBack(d[0]);
      LinesAreOneLine(d[1..]);
    }
  }

  /** No key of `d` is in `before`. */
  predicate AllNew(d: Dict, before: Dict) { forall i :: 0 <= i < |d| ==> Get(before, d[i].0).None? }

  lemma StillNew(d: Dict, before: Dict)
    requires d != [] && Distinct(d) && AllNew(d, before)
    ensures AllNew(d[1..], Put(before, d[0].0, d[0].1))
  {
    forall i | 0 <= i < |d[1..]| ensures Get(Put(before, d[0].0, d[0].1), d[1..][i].0).None? {
      NoneAmong(d[1..], d[0].0, i);
      GetPut(before, d[0].0, d[0].1, d[1..][i].0);
    }
  }

  lemma Regroup(before: Dict, d: Dict)
    requires d != []
    ensures before + [(d[0].0, d[0].1)] + d[1..] == before + d
  {
  }

  lemma ReadPair(p: (string, string), rest: seq<string>, before: Dict)
    requires ValidPair(p)
    ensures ParseLines([LineOf(p)] + rest, before) == ParseLines(rest, Put(before, p.0, p.1))
  {
    LineReadsBack(p);
    assert ([LineOf(p)] + rest)[1..] == rest;
  }

  lemma {:induction false} LinesReadBack(d: Dict, before: Dict)
    requires Clean(d) && AllNew(d, before)
    ensures ParseLines(LinesOf(d), before) == Some(before + d)
    decreases d
  {
    if d == [] {
      assert before + d == before;
    } else {
      ReadPair(d[0], LinesOf(d[1..]), before);
      StillNew(d, before);
      PutNew(before, d[0].0, d[0].1);
      LinesReadBack(d[1..], Put(before, d[0].0, d[0].1));
      Regroup(before, d);
    }
  }

  lemma {:induction false} NoneAmong(d: Dict, k: string, i: nat)
    requires Get(d, k).None? && i < |d|
    ensures d[i].0 != k
  {
    if i > 0 { NoneAmong(d[1..], k, i - 1); }
  }

  predicate Comment(s: string) { s != "" && s[0] == '#' && OneLine(s) && RightTrimmed(s) }

  lemma CommentSkipped(s: string)
    requires Comment(s)
    ensures ReadLine(s) == Skipped
  {
    assert Strip(s) == s;
  }

  lemma WarningIsComment()
    ensures Comment(WARNING)
  {
  }

  lemma SkipComments(header: string, second: string, lines: seq<string>, d: Dict)
    requires Comment(header) && Comment(second)
    ensures ParseLines([header, second] + lines, d) == ParseLines(lines, d)
  {
    CommentSkipped(header);
    CommentSkipped(second);
    var all := [header, second] + lines;
    assert all[1..][0] == second;
    assert all[1..][1..] == lines;
  }

  /** Parse undoes print, and keeps the order. */
  lemma BodyReadsBack(header: string, d: Dict)
    requires Comment(header) && Clean(d)
    ensures Parsed(Body(header, d)) == Some(d)
  {
    WarningIsComment();
    LinesAreOneLine(d);
    SplitUnlines([header, WARNING] + LinesOf(d));
    SkipComments(header, WARNING, LinesOf(d), []);
    LinesReadBack(d, []);
    assert [] + d == d;
  }
}

/** Rendering a machine's env files and checking them (scripts/render_env.py). */
module RenderEnv {
  import opened Common
  import opened EnvText
  import opened Sorting
  import opened StringOrder

  // --- dictionaries --------------------------------------------------------------------------------------

  /** `{**d, **e}`. */
  function Merge(d: Dict, e: Dict): Dict
    decreases e
  {
    if e == [] then d else Merge(Put(d, e[0].0, e[0].1), e[1..])
  }

  function Pick(d: Dict, keep: string -> bool): Dict {
    if d == [] then [] else if keep(d[0].0) then [d[0]] + Pick(d[1..], keep) else Pick(d[1..], keep)
  }

  lemma {:induction false} GetMerge(d: Dict, e: Dict, k: string)
    requires Distinct(e)
    ensures Get(Merge(d, e), k) == if Get(e, k).Some? then Get(e, k) else Get(d, k)
    decreases e
  {
    if e != [] {
      GetMerge(Put(d, e[0].0, e[0].1), e[1..], k);
      GetPut(d, e[0].0, e[0].1, k);
    }
  }

  lemma {:induction false} MergeClean(d: Dict, e: Dict)
    requires Clean(d) && ValidPairs(e)
    ensures Clean(Merge(d, e))
    decreases e
  {
    if e != [] {
      PutClean(d, e[0].0, e[0].1);
      MergeClean(Put(d, e[0].0, e[0].1), e[1..]);
    }
  }

  lemma {:induction false} GetPick(d: Dict, keep: string -> bool, k: string)
    ensures Get(Pick(d, keep), k) == if keep(k) then Get(d, k) else None
  {
    if d != [] {
      GetPick(d[1..], keep, k);
      if keep(d[0].0) { assert Pick(d, keep)[1..] == Pick(d[1..], keep); }
    }
  }

  lemma {:induction false} PickClean(d: Dict, keep: string -> bool)
    requires Clean(d)
    ensures Clean(Pick(d, keep))
  {
    if d != [] {
      PickClean(d[1..], keep);
      if keep(d[0].0) {
        GetPick(d[1..], keep, d[0].0);
        assert Pick(d, keep)[1..] == Pick(d[1..], keep);
      }
    }
  }

  ghost predicate SameMap(d: Dict, e: Dict) { forall k :: Get(d, k) == Get(e, k) }

  // --- splitting over files ------------------------------------------------------------------------------

  /** An extra output file and the prefix of the keys that go there. */
  datatype Extra = Extra(name: string, prefix: string)

  predicate Goes(x: Extra, k: string) { x.prefix <= k }

  predicate Moves(extras: seq<Extra>, k: string) { exists i :: 0 <= i < |extras| && Goes(extras[i], k) }

  function ExtraDicts(all: Dict, extras: seq<Extra>): seq<Dict> {
    if extras == [] then [] else [Pick(all, k => Goes(extras[0], k))] + ExtraDicts(all, extras[1..])
  }

  /** The primary file's pairs, then each extra file's. */
  function Split(all: Dict, extras: seq<Extra>): seq<Dict> {
    [Pick(all, k => !Moves(extras, k))] + ExtraDicts(all, extras)
  }

  function FilesWith(files: seq<Dict>, k: string): nat {
    if files == [] then 0 else (if Get(files[0], k).Some? then 1 else 0) + FilesWith(files[1..], k)
  }

  function Matching(extras: seq<Extra>, k: string): nat {
    if extras == [] then 0 else (if Goes(extras[0], k) then 1 else 0) + Matching(extras[1..], k)
  }

  lemma {:induction false} ExtrasWith(all: Dict, extras: seq<Extra>, k: string)
    ensures FilesWith(ExtraDicts(all, extras), k) == if Get(all, k).Some? then Matching(extras, k) else 0
    ensures Matching(extras, k) == 0 <==> !Moves(extras, k)
  {
    if extras != [] {
      ExtrasWith(all, extras[1..], k);
      GetPick(all, k => Goes(extras[0], k), k);
      assert ExtraDicts(all, extras)[1..] == ExtraDicts(all, extras[1..]);
      assert Moves(extras, k) <==> Goes(extras[0], k) || Moves(extras[1..], k) by {
        if Moves(extras[1..], k) {
          var i :| 0 <= i < |extras[1..]| && Goes(extras[1..][i], k);
          assert Goes(extras[i + 1], k);
        }
      }
    }
  }

  /** Every key is in exactly one output file if and only if at most one prefix fits it. */
  lemma OneFilePerKeyIff(all: Dict, extras: seq<Extra>, k: string)
    requires Get(all, k).Some?
    ensures FilesWith(Split(all, extras), k) == 1 <==> Matching(extras, k) <= 1
    ensures FilesWith(Split(all, extras), k) >= 1
  {
    ExtrasWith(all, extras, k);
    GetPick(all, k => !Moves(extras, k), k);
    assert Split(all, extras)[1..] == ExtraDicts(all, extras);
  }

  // --- what differs --------------------------------------------------------------------------------------

  datatype Change = Added | Removed | Changed
  datatype Row = Row(key: string, change: Change)

  function Names(d: Dict): seq<string> {
    if d == [] then [] else [d[0].0] + Names(d[1..])
  }

  /** The keys of both, each once, in order. */
  function BothNames(old_: Dict, new_: Dict): seq<string> {
    StableSort(Names(old_) + Names(Pick(new_, k => Get(old_, k).None?)), StringLe)
  }

  lemma {:induction false} NamesAreKeys(d: Dict, k: string)
    ensures k in Names(d) <==> Get(d, k).Some?
  {
    if d != [] { NamesAreKeys(d[1..], k); }
  }

  lemma BothNamesAreKeys(old_: Dict, new_: Dict, k: string)
    ensures k in BothNames(old_, new_) <==> Get(old_, k).Some? || Get(new_, k).Some?
  {
    NamesAreKeys(old_, k);
    var added := Pick(new_, k => Get(old_, k).None?);
    NamesAreKeys(added, k);
    GetPick(new_, k => Get(old_, k).None?, k);
    StableSortMembers(Names(old_) + Names(added), StringLe);
  }

  predicate Differ(old_: Dict, new_: Dict, k: string) { Get(old_, k) != Get(new_, k) }

  function RowOf(old_: Dict, new_: Dict, k: string): Row {
    Row(k, if Get(old_, k).None? then Added else if Get(new_, k).None? then Removed else Changed)
  }

  function Diff(names: seq<string>, old_: Dict, new_: Dict): seq<Row> {
    if names == [] then []
    else Diff(Front(names), old_, new_) +
         if Differ(old_, new_, Last(names)) then [RowOf(old_, new_, Last(names))] else []
  }

  lemma {:induction false} DiffMembers(names: seq<string>, old_: Dict, new_: Dict, r: Row)
    ensures r in Diff(names, old_, new_) <==>
              r.key in names && Differ(old_, new_, r.key) && r == RowOf(old_, new_, r.key)
  {
    if names != [] {
      DiffMembers(Front(names), old_, new_, r);
      assert names == Front(names) + [Last(names)];
    }
  }

  predicate RowLe(a: Row, b: Row) { StringLe(a.key, b.key) }

  lemma {:induction false} DiffSorted(names: seq<string>, old_: Dict, new_: Dict)
    requires SortedBy(names, StringLe)
    ensures SortedBy(Diff(names, old_, new_), RowLe)
  {
    if names != [] {
      var before := Diff(Front(names), old_, new_);
      DiffSorted(Front(names), old_, new_);
      forall i | 0 <= i < |before| ensures StringLe(before[i].key, Last(names)) {
        DiffMembers(Front(names), old_, new_, before[i]);
        assert before[i] in before;
        var m :| 0 <= m < |names| - 1 && names[m] == before[i].key;
      }
    }
  }

  /** One row per key that differs, in the order of the keys. */
  method DiffKeys(old_: Dict, new_: Dict) returns (rows: seq<Row>)
    ensures rows == Diff(BothNames(old_, new_), old_, new_)
  {
    rows := [];
    var names := BothNames(old_, new_);
    for n := 0 to |names|
      invariant rows == Diff(names[..n], old_, new_)
    {
      assert Front(names[..n + 1]) == names[..n];
      if Differ(old_, new_, names[n]) { rows := rows + [RowOf(old_, new_, names[n])]; }
    }
    assert names[..|names|] == names;
  }

  /** The rows are exactly the keys that differ, sorted: none if and only if the maps are equal. */
  lemma DiffIsExact(old_: Dict, new_: Dict)
    ensures var rows := Diff(BothNames(old_, new_), old_, new_);
            && (rows == [] <==> SameMap(old_, new_))
            && (forall r :: r in rows <==> Differ(old_, new_, r.key) && r == RowOf(old_, new_, r.key))
            && SortedBy(rows, RowLe)
  {
    var names := BothNames(old_, new_);
    var rows := Diff(names, old_, new_);
    StringLeTotalPreorder();
    StableSortSorted(Names(old_) + Names(Pick(new_, k => Get(old_, k).None?)), StringLe);
    DiffSorted(names, old_, new_);
    forall r ensures r in rows <==> Differ(old_, new_, r.key) && r == RowOf(old_, new_, r.key) {
      DiffMembers(names, old_, new_, r);
      BothNamesAreKeys(old_, new_, r.key);
    }
    if rows != [] {
      assert rows[0] in rows;
      assert Differ(old_, new_, rows[0].key);
    }
    forall k | rows == [] ensures Get(old_, k) == Get(new_, k) {
      assert RowOf(old_, new_, k) !in rows;
    }
  }

  // --- render --------------------------------------------------------------------------------------------

  datatype Result<+T> = Ok(value: T) | Err(error: Error) {
    predicate IsFailure() { Err? }
    function PropagateFailure<U>(): Result<U> requires Err? { Err(error) }
    function Extract(): T requires Ok? { value }
  }

  datatype Error =
    | BadFile | UnknownProfile | ProfileHoldsSecrets | NoSecretsFile | MissingSecrets
    | StraySecrets | OverridesHoldSecrets

  /** What a render reads: the files' texts, and the hashes it puts into the result. */
  datatype Machine = Machine(
    name: string, base: string, profile: string, secrets: Option<string>, example: string, overrides: Option<string>,
    settingsHash: Dict -> string, overridesHash: Dict -> string)

  const TAG := "IMAGE_TAG"
  const PROFILE_KEY := "CONFIG_PROFILE"
  const HASH_KEY := "CONFIG_HASH"
  const OVERRIDES_KEY := "CONFIG_OVERRIDES"
  const PLACEHOLDER := "CHANGE_ME"

  function Read(text: string): Result<Dict> {
    if Parsed(text).Some? then Ok(Parsed(text).value) else Err(BadFile)
  }

  predicate EndsWith(s: string, suffix: string) {
    |suffix| <= |s| && s[|s| - |suffix|..] == suffix
  }

  predicate IsSecret(k: string) {
    EndsWith(k, "PASSWORD") || EndsWith(k, "_SECRET") || EndsWith(k, "_KEY")
    || EndsWith(k, "_TOKEN") || EndsWith(k, "ROOT_USER")
  }

  /** The primary output file. */
  function PrimaryOf(name: string, profile: Dict): Result<string> {
    if name == "server" then Ok(".env")
    else if name == "staging" then Ok(".env.staging")
    else if name != "base" && Get(profile, "SERVER_KIND") == Some("robot") then Ok(".env.robot")
    else Err(UnknownProfile)
  }

  function Extras(name: string): seq<Extra> {
    if name == "server" then [Extra("livekit_sfu.env", "LIVEKIT_SFU_")] else []
  }

  /** The secrets of `names` that are set, in that order. */
  function Chosen(names: seq<string>, secrets: Dict): Dict {
    if names == [] then []
    else
      var d, k := Chosen(Front(names), secrets), Last(names);
      if Get(secrets, k).Some? then Put(d, k, Get(secrets, k).value) else d
  }

  /** All that does not come from the previous output. */
  datatype Gathered = Gathered(primary: string, config: Dict, chosen: Dict)

  /** base.env, then the profile. */
  function Settings(m: Machine): Result<Dict> {
    var profile :- Read(m.profile);
    var base :- if m.name == "staging" then Ok([]) else Read(m.base);
    if exists k :: k in Names(Merge(base, profile)) && IsSecret(k) then Err(ProfileHoldsSecrets)
    else Ok(Merge(base, profile))
  }

  function RequiredOf(example: Dict): seq<string> { Names(Pick(example, k => Get(example, k) == Some(PLACEHOLDER))) }

  function OptionalOf(example: Dict): seq<string> { Names(Pick(example, k => Get(example, k) != Some(PLACEHOLDER))) }

  predicate Unset(secrets: Dict, k: string) {
    Get(secrets, k).None? || Get(secrets, k).value in ["", PLACEHOLDER]
  }

  /** All secrets that are required, and none that the example does not name. */
  function CheckedSecrets(secrets: Dict, example: Dict): Result<Dict> {
    var required, optional := RequiredOf(example), OptionalOf(example);
    if exists k :: k in required && Unset(secrets, k) then Err(MissingSecrets)
    else if exists k :: k in Names(secrets) && k !in required && k !in optional then Err(StraySecrets)
    else Ok(Chosen(required + optional, secrets))
  }

  function Secrets(m: Machine): Result<Dict> {
    if m.secrets.None? then Err(NoSecretsFile)
    else
      var secrets :- Read(m.secrets.value);
      var example :- Read(m.example);
      CheckedSecrets(secrets, example)
  }

  function Overrides(m: Machine): Result<Dict> {
    var overrides :- if m.overrides.None? then Ok([]) else Read(m.overrides.value);
    if exists k :: k in Names(overrides) && IsSecret(k) then Err(OverridesHoldSecrets) else Ok(overrides)
  }

  function Primary(m: Machine): Result<string> {
    var profile :- Read(m.profile);
    PrimaryOf(m.name, profile)
  }

  function Gather(m: Machine): Result<Gathered> {
    var primary :- Primary(m);
    var settings :- Settings(m);
    var secrets :- Secrets(m);
    var overrides :- Overrides(m);
    Ok(Gathered(primary, Config(m, settings, overrides), secrets))
  }

  function Config(m: Machine, settings: Dict, overrides: Dict): Dict {
    Put(Put(Put(Merge(settings, overrides), PROFILE_KEY, m.name), HASH_KEY, m.settingsHash(settings)),
        OVERRIDES_KEY, m.overridesHash(overrides))
  }

  function Kept(previous: Dict): Dict {
    if Get(previous, TAG).Some? then [(TAG, Get(previous, TAG).value)] else []
  }

  function Everything(g: Gathered, previous: Dict): Dict {
    Merge(Merge(g.config, Kept(previous)), g.chosen)
  }

  const HEAD := "# Rendered by scripts/render_env.sh "
  const MIDDLE := ": do not edit; change profiles/"
  const TAIL := ".env or secrets.env and render again."

  function Header(name: string): string { HEAD + name + MIDDLE + name + TAIL }

  function OutputNames(primary: string, extras: seq<Extra>): seq<string> {
    [primary] + seq(|extras|, i requires 0 <= i < |extras| => extras[i].name)
  }

  function Texts(header: string, names: seq<string>, dicts: seq<Dict>): seq<(string, string)>
    requires |names| == |dicts|
  {
    if names == [] then [] else [(names[0], Body(header, dicts[0]))] + Texts(header, names[1..], dicts[1..])
  }

  lemma {:induction false} SplitSize(all: Dict, extras: seq<Extra>)
    ensures |ExtraDicts(all, extras)| == |extras|
  {
    if extras != [] { SplitSize(all, extras[1..]); }
  }

  function Outputs(name: string, primary: string, all: Dict): seq<(string, string)> {
    SplitSize(all, Extras(name));
    Texts(Header(name), OutputNames(primary, Extras(name)), Split(all, Extras(name)))
  }

  /** {output file name: text}, in order. */
  function Render(m: Machine, previous: Dict): Result<seq<(string, string)>> {
    var g :- Gather(m);
    Ok(Outputs(m.name, g.primary, Everything(g, previous)))
  }

  // --- what is rendered, and when it is refused ------------------------------------------------------------

  /** A name that ends like a secret's. */
  ghost predicate SecretName(k: string) {
    exists p: string :: k == p + "PASSWORD" || k == p + "_SECRET" || k == p + "_KEY"
                        || k == p + "_TOKEN" || k == p + "ROOT_USER"
  }

  lemma EndsWithMeans(k: string, suffix: string)
    ensures EndsWith(k, suffix) <==> exists p: string :: k == p + suffix
  {
    if EndsWith(k, suffix) {
      assert k == k[..|k| - |suffix|] + suffix;
    }
    if exists p: string :: k == p + suffix {
      var p: string :| k == p + suffix;
      assert k[|k| - |suffix|..] == suffix;
    }
  }

  lemma IsSecretMeans(k: string)
    ensures IsSecret(k) <==> SecretName(k)
  {
    EndsWithMeans(k, "PASSWORD");
    EndsWithMeans(k, "_SECRET");
    EndsWithMeans(k, "_KEY");
    EndsWithMeans(k, "_TOKEN");
    EndsWithMeans(k, "ROOT_USER");
  }

  ghost predicate HoldsSecret(d: Dict) { exists k :: Get(d, k).Some? && SecretName(k) }

  lemma HoldsSecretMeans(d: Dict)
    ensures HoldsSecret(d) <==> exists k :: k in Names(d) && IsSecret(k)
  {
    forall k ensures (k in Names(d) <==> Get(d, k).Some?) && (IsSecret(k) <==> SecretName(k)) {
      NamesAreKeys(d, k);
      IsSecretMeans(k);
    }
  }

  /** The output file of a profile: two are built in, any other is a robot's if it says so. */
  lemma PrimaryMeans(m: Machine)
    ensures Primary(m).Ok? <==>
              && Parsed(m.profile).Some?
              && (m.name == "server" || m.name == "staging"
                  || (m.name != "base" && Get(Parsed(m.profile).value, "SERVER_KIND") == Some("robot")))
    ensures Primary(m).Ok? ==>
              (Primary(m).value ==
               if m.name == "server" then ".env" else if m.name == "staging" then ".env.staging" else ".env.robot")
  {
  }

  /** The settings: the profile's, and below it base.env's except for staging; refused if one has the name
      of a secret. */
  lemma SettingsMean(m: Machine)
    ensures Settings(m).Ok? ==> Parsed(m.profile).Some? && (m.name != "staging" ==> Parsed(m.base).Some?)
    ensures Settings(m).Ok? ==> !HoldsSecret(Settings(m).value)
    ensures Settings(m).Ok? ==>
              forall k :: (Get(Settings(m).value, k) ==
                           if Get(Parsed(m.profile).value, k).Some? then Get(Parsed(m.profile).value, k)
                           else if m.name != "staging" then Get(Parsed(m.base).value, k) else None)
    ensures Settings(m).Err? && Parsed(m.profile).Some? && (m.name != "staging" ==> Parsed(m.base).Some?) ==>
              exists k :: SecretName(k) && (Get(Parsed(m.profile).value, k).Some?
                                            || (m.name != "staging" && Get(Parsed(m.base).value, k).Some?))
  {
    if Parsed(m.profile).Some? && (m.name != "staging" ==> Parsed(m.base).Some?) {
      var base := if m.name == "staging" then [] else Parsed(m.base).value;
      var profile := Parsed(m.profile).value;
      ParsedIsClean(m.profile);
      HoldsSecretMeans(Merge(base, profile));
      forall k ensures Get(Merge(base, profile), k) == if Get(profile, k).Some? then Get(profile, k) else Get(base, k) {
        GetMerge(base, profile, k);
      }
    }
  }

  lemma {:induction false} ChosenAt(names: seq<string>, secrets: Dict, k: string)
    ensures Get(Chosen(names, secrets), k) == if k in names then Get(secrets, k) else None
  {
    if names != [] {
      ChosenAt(Front(names), secrets, k);
      assert names == Front(names) + [Last(names)];
      if Get(secrets, Last(names)).Some? {
        GetPut(Chosen(Front(names), secrets), Last(names), Get(secrets, Last(names)).value, k);
      }
    }
  }

  /** Every key the example marks as required is set. */
  ghost predicate AllRequiredSet(secrets: Dict, example: Dict) {
    forall k | Get(example, k) == Some("CHANGE_ME") ::
      Get(secrets, k).Some? && Get(secrets, k).value != "" && Get(secrets, k).value != "CHANGE_ME"
  }

  ghost predicate NoneStray(secrets: Dict, example: Dict) {
    forall k | Get(secrets, k).Some? :: Get(example, k).Some?
  }

  lemma RequiredMeans(example: Dict, k: string)
    ensures k in RequiredOf(example) <==> Get(example, k) == Some("CHANGE_ME")
    ensures k in OptionalOf(example) <==> Get(example, k).Some? && Get(example, k) != Some("CHANGE_ME")
  {
    var required, optional := k => Get(example, k) == Some(PLACEHOLDER), k => Get(example, k) != Some(PLACEHOLDER);
    NamesAreKeys(Pick(example, required), k);
    NamesAreKeys(Pick(example, optional), k);
    GetPick(example, required, k);
    GetPick(example, optional, k);
  }

  lemma MissingMeans(secrets: Dict, example: Dict)
    ensures (exists k :: k in RequiredOf(example) && Unset(secrets, k)) <==> !AllRequiredSet(secrets, example)
  {
    forall k ensures k in RequiredOf(example) <==> Get(example, k) == Some("CHANGE_ME") { RequiredMeans(example, k); }
    if !AllRequiredSet(secrets, example) {
      var k :| Get(example, k) == Some("CHANGE_ME") &&
               !(Get(secrets, k).Some? && Get(secrets, k).value != "" && Get(secrets, k).value != "CHANGE_ME");
      assert Unset(secrets, k);
    }
  }

  lemma StrayMeans(secrets: Dict, example: Dict)
    ensures (exists k :: k in Names(secrets) && k !in RequiredOf(example) && k !in OptionalOf(example))
       <==> !NoneStray(secrets, example)
  {
    forall k
      ensures k in RequiredOf(example) || k in OptionalOf(example) <==> Get(example, k).Some?
      ensures k in Names(secrets) <==> Get(secrets, k).Some?
    {
      RequiredMeans(example, k);
      NamesAreKeys(secrets, k);
    }
  }

  lemma ChosenIsAll(secrets: Dict, example: Dict)
    requires NoneStray(secrets, example)
    ensures forall k :: Get(Chosen(RequiredOf(example) + OptionalOf(example), secrets), k) == Get(secrets, k)
  {
    var names := RequiredOf(example) + OptionalOf(example);
    forall k ensures Get(Chosen(names, secrets), k) == Get(secrets, k) {
      RequiredMeans(example, k);
      ChosenAt(names, secrets, k);
    }
  }

  /** The secrets are taken as they are exactly if the file is there, parses, sets all that is required, and has no key
      that the example does not name. */
  lemma SecretsMean(m: Machine)
    ensures Secrets(m).Ok? <==>
              && m.secrets.Some? && Parsed(m.secrets.value).Some? && Parsed(m.example).Some?
              && AllRequiredSet(Parsed(m.secrets.value).value, Parsed(m.example).value)
              && NoneStray(Parsed(m.secrets.value).value, Parsed(m.example).value)
    ensures Secrets(m).Ok? ==> forall k :: Get(Secrets(m).value, k) == Get(Parsed(m.secrets.value).value, k)
  {
    if m.secrets.Some? && Parsed(m.secrets.value).Some? && Parsed(m.example).Some? {
      var secrets, example := Parsed(m.secrets.value).value, Parsed(m.example).value;
      MissingMeans(secrets, example);
      StrayMeans(secrets, example);
      if NoneStray(secrets, example) {
        ChosenIsAll(secrets, example);
      }
    }
  }

  /** The machine's own overrides: none without a file, refused if one has the name of a secret. */
  lemma OverridesMean(m: Machine)
    ensures Overrides(m).Ok? <==>
              m.overrides.Some? ==> Parsed(m.overrides.value).Some? && !HoldsSecret(Parsed(m.overrides.value).value)
    ensures Overrides(m).Ok? ==>
              Overrides(m).value == if m.overrides.None? then [] else Parsed(m.overrides.value).value
  {
    HoldsSecretMeans(if m.overrides.Some? && Parsed(m.overrides.value).Some?
                     then Parsed(m.overrides.value).value else []);
    assert !HoldsSecret([]);
  }

  /** The configuration by key: the three CONFIG_ keys are the render's own, an override wins over a setting. */
  lemma ConfigAt(m: Machine, settings: Dict, overrides: Dict, k: string)
    requires Distinct(overrides)
    ensures Get(Config(m, settings, overrides), k) ==
            if k == "CONFIG_OVERRIDES" then Some(m.overridesHash(overrides))
            else if k == "CONFIG_HASH" then Some(m.settingsHash(settings))
            else if k == "CONFIG_PROFILE" then Some(m.name)
            else if Get(overrides, k).Some? then Get(overrides, k) else Get(settings, k)
  {
    var a := Merge(settings, overrides);
    var b := Put(a, PROFILE_KEY, m.name);
    var c := Put(b, HASH_KEY, m.settingsHash(settings));
    GetMerge(settings, overrides, k);
    GetPut(a, PROFILE_KEY, m.name, k);
    GetPut(b, HASH_KEY, m.settingsHash(settings), k);
    GetPut(c, OVERRIDES_KEY, m.overridesHash(overrides), k);
  }

  /** A render is refused exactly if one of its four inputs is. */
  lemma GatherOkIff(m: Machine)
    ensures Gather(m).Ok? <==> Primary(m).Ok? && Settings(m).Ok? && Secrets(m).Ok? && Overrides(m).Ok?
    ensures Gather(m).Ok? ==> Gather(m).value.primary == Primary(m).value && Gather(m).value.chosen == Secrets(m).value
    ensures Gather(m).Ok? ==> Gather(m).value.config == Config(m, Settings(m).value, Overrides(m).value)
  {
  }

  /** Of the server's settings those with the prefix LIVEKIT_SFU_ are in livekit_sfu.env and no others; every setting of
      every profile is in exactly one file. */
  lemma ShippedSplit(name: string, all: Dict, k: string)
    requires Get(all, k).Some?
    ensures FilesWith(Split(all, Extras(name)), k) == 1
    ensures |Split(all, Extras(name))| == if name == "server" then 2 else 1
    ensures Get(Split(all, Extras(name))[0], k).None? <==> name == "server" && "LIVEKIT_SFU_" <= k
    ensures name == "server" ==> (Get(Split(all, Extras(name))[1], k).Some? <==> "LIVEKIT_SFU_" <= k)
  {
    var extras := Extras(name);
    assert Matching(extras, k) <= 1 by {
      if name == "server" { assert extras[1..] == []; }
    }
    OneFilePerKeyIff(all, extras, k);
    SplitSize(all, extras);
    GetPick(all, k => !Moves(extras, k), k);
    assert Moves(extras, k) <==> name == "server" && Goes(extras[0], k);
    if name == "server" {
      GetPick(all, k => Goes(extras[0], k), k);
    }
  }

  // --- what a render keeps -------------------------------------------------------------------------------

  /** The profile's name and the hashes can stand in a file. */
  ghost predicate Printable(m: Machine) {
    && OneLine(m.name) && RightTrimmed(m.name)
    && (forall d :: OneLine(m.settingsHash(d)) && RightTrimmed(m.settingsHash(d)))
    && (forall d :: OneLine(m.overridesHash(d)) && RightTrimmed(m.overridesHash(d)))
  }

  lemma KeysAreValid()
    ensures ValidKey(TAG) && ValidKey(PROFILE_KEY) && ValidKey(HASH_KEY) && ValidKey(OVERRIDES_KEY)
  {
  }

  lemma {:induction false} ChosenClean(names: seq<string>, secrets: Dict)
    requires Clean(secrets)
    ensures Clean(Chosen(names, secrets))
  {
    if names != [] {
      ChosenClean(Front(names), secrets);
      if Get(secrets, Last(names)).Some? {
        FoundIsValid(secrets, Last(names));
        PutClean(Chosen(Front(names), secrets), Last(names), Get(secrets, Last(names)).value);
      }
    }
  }

  lemma {:induction false} FoundIsValid(d: Dict, k: string)
    requires ValidPairs(d) && Get(d, k).Some?
    ensures ValidPair((k, Get(d, k).value))
  {
    if d[0].0 != k { FoundIsValid(d[1..], k); } else { assert d[0] == (k, Get(d, k).value); }
  }

  lemma ConfigClean(m: Machine, settings: Dict, overrides: Dict)
    requires Printable(m) && Clean(settings) && Clean(overrides)
    ensures Clean(Config(m, settings, overrides))
  {
    KeysAreValid();
    MergeClean(settings, overrides);
    var a := Merge(settings, overrides);
    PutClean(a, PROFILE_KEY, m.name);
    var b := Put(a, PROFILE_KEY, m.name);
    PutClean(b, HASH_KEY, m.settingsHash(settings));
    PutClean(Put(b, HASH_KEY, m.settingsHash(settings)), OVERRIDES_KEY, m.overridesHash(overrides));
  }

  lemma SettingsClean(m: Machine)
    ensures Settings(m).Ok? ==> Clean(Settings(m).value)
    ensures Overrides(m).Ok? ==> Clean(Overrides(m).value)
  {
    ParsedIsClean(m.profile);
    ParsedIsClean(m.base);
    if Settings(m).Ok? {
      MergeClean(if m.name == "staging" then [] else Read(m.base).value, Read(m.profile).value);
    }
    if m.overrides.Some? { ParsedIsClean(m.overrides.value); }
  }

  lemma SecretsClean(m: Machine)
    ensures Secrets(m).Ok? ==> Clean(Secrets(m).value)
  {
    if Secrets(m).Ok? {
      ParsedIsClean(m.secrets.value);
      var example := Read(m.example).value;
      ChosenClean(RequiredOf(example) + OptionalOf(example), Read(m.secrets.value).value);
    }
  }

  lemma GatherClean(m: Machine)
    requires Printable(m) && Gather(m).Ok?
    ensures Clean(Gather(m).value.config) && Clean(Gather(m).value.chosen)
  {
    SettingsClean(m);
    SecretsClean(m);
    ConfigClean(m, Settings(m).value, Overrides(m).value);
  }

  lemma EverythingClean(g: Gathered, previous: Dict)
    requires Clean(g.config) && Clean(g.chosen) && Clean(previous)
    ensures Clean(Everything(g, previous))
  {
    if Get(previous, TAG).Some? { FoundIsValid(previous, TAG); }
    MergeClean(g.config, Kept(previous));
    MergeClean(Merge(g.config, Kept(previous)), g.chosen);
  }

  /** Rendering over an output that holds the tag of the last render gives the same settings, and the same order of
      them unless the tag is among the secrets. */
  lemma TagKept(g: Gathered, previous: Dict, output: Dict)
    requires Clean(g.config) && Clean(g.chosen)
    requires Get(output, TAG) == Get(Everything(g, previous), TAG)
    ensures SameMap(Everything(g, output), Everything(g, previous))
    ensures Get(g.chosen, TAG).None? ==> Everything(g, output) == Everything(g, previous)
  {
    EverythingAt(g, previous, TAG);
    forall k ensures Get(Everything(g, output), k) == Get(Everything(g, previous), k) {
      EverythingAt(g, output, k);
      EverythingAt(g, previous, k);
    }
    if Get(g.chosen, TAG).None? && Get(previous, TAG).None? && Get(g.config, TAG).Some? {
      PutSame(g.config, TAG);
      assert Kept(output)[1..] == [];
      assert Merge(g.config, Kept(output)) == Merge(Put(g.config, TAG, Get(g.config, TAG).value), []);
    }
  }

  /** Secrets first, then the kept tag, then the configuration. */
  lemma EverythingAt(g: Gathered, previous: Dict, k: string)
    requires Clean(g.chosen)
    ensures Get(Everything(g, previous), k) ==
            if Get(g.chosen, k).Some? then Get(g.chosen, k)
            else if k == "IMAGE_TAG" && Get(previous, "IMAGE_TAG").Some? then Get(previous, "IMAGE_TAG")
            else Get(g.config, k)
  {
    GetMerge(Merge(g.config, Kept(previous)), g.chosen, k);
    GetMerge(g.config, Kept(previous), k);
  }

  // --- check ---------------------------------------------------------------------------------------------

  type Disk = map<string, string>

  function OnDisk(disk: Disk, name: string): Result<Dict> {
    if name in disk then Read(disk[name]) else Ok([])
  }

  function Write(disk: Disk, texts: seq<(string, string)>): Disk
    decreases texts
  {
    if texts == [] then disk else Write(disk[texts[0].0 := texts[0].1], texts[1..])
  }

  /** What would change in each file. */
  function Rows(disk: Disk, texts: seq<(string, string)>): Result<seq<Row>> {
    if texts == [] then Ok([])
    else
      var before :- Rows(disk, Front(texts));
      var old_ :- OnDisk(disk, Last(texts).0);
      var new_ :- Read(Last(texts).1);
      Ok(before + Diff(BothNames(old_, new_), old_, new_))
  }

  function CheckRows(m: Machine, disk: Disk): Result<seq<Row>> {
    var primary :- Primary(m);
    var previous :- OnDisk(disk, primary);
    var texts :- Render(m, previous);
    Rows(disk, texts)
  }

  /** `--check`. */
  method Check(m: Machine, disk: Disk) returns (report: Result<seq<Row>>)
    ensures report == CheckRows(m, disk)
  {
    var primary :- Primary(m);
    var previous :- OnDisk(disk, primary);
    var texts :- Render(m, previous);
    var rows: seq<Row> := [];
    for i := 0 to |texts|
      invariant Rows(disk, texts[..i]) == Ok(rows)
    {
      assert Front(texts[..i + 1]) == texts[..i] && Last(texts[..i + 1]) == texts[i];
      var old_ := OnDisk(disk, texts[i].0);
      var new_ := Read(texts[i].1);
      if old_.Err? || new_.Err? {
        var e := if old_.Err? then old_.error else new_.error;
        RowsFail(disk, texts, i, e);
        return Err(e);
      }
      var more := DiffKeys(old_.value, new_.value);
      rows := rows + more;
    }
    assert texts[..|texts|] == texts;
    return Ok(rows);
  }

  /** The first file that cannot be read ends the check. */
  lemma {:induction false} RowsFail(disk: Disk, texts: seq<(string, string)>, i: nat, e: Error)
    requires i < |texts| && Rows(disk, texts[..i + 1]) == Err(e)
    ensures Rows(disk, texts) == Err(e)
  {
    if i + 1 == |texts| {
      assert texts[..i + 1] == texts;
    } else {
      assert Front(texts)[..i + 1] == texts[..i + 1];
      RowsFail(disk, Front(texts), i, e);
    }
  }

  lemma {:induction false} WrittenElsewhere(disk: Disk, texts: seq<(string, string)>, name: string)
    requires forall i :: 0 <= i < |texts| ==> texts[i].0 != name
    ensures name in Write(disk, texts) <==> name in disk
    ensures name in disk ==> Write(disk, texts)[name] == disk[name]
    decreases texts
  {
    if texts != [] { WrittenElsewhere(disk[texts[0].0 := texts[0].1], texts[1..], name); }
  }

  predicate NamesDiffer(texts: seq<(string, string)>) {
    forall i, j :: 0 <= i < j < |texts| ==> texts[i].0 != texts[j].0
  }

  lemma {:induction false} WrittenIsThere(disk: Disk, texts: seq<(string, string)>, i: nat)
    requires NamesDiffer(texts) && i < |texts|
    ensures texts[i].0 in Write(disk, texts) && Write(disk, texts)[texts[i].0] == texts[i].1
    decreases texts
  {
    var next := disk[texts[0].0 := texts[0].1];
    if i == 0 {
      WrittenElsewhere(next, texts[1..], texts[0].0);
    } else {
      WrittenIsThere(next, texts[1..], i - 1);
    }
  }

  /** A file and its next rendering hold the same settings. */
  ghost predicate Agrees(disk: Disk, text: (string, string)) {
    && OnDisk(disk, text.0).Ok? && Read(text.1).Ok?
    && SameMap(OnDisk(disk, text.0).value, Read(text.1).value)
  }

  lemma {:induction false} NoRows(disk: Disk, texts: seq<(string, string)>)
    requires forall i :: 0 <= i < |texts| ==> Agrees(disk, texts[i])
    ensures Rows(disk, texts) == Ok([])
  {
    if texts != [] {
      NoRows(disk, Front(texts));
      assert Agrees(disk, Last(texts));
      DiffIsExact(OnDisk(disk, Last(texts).0).value, Read(Last(texts).1).value);
    }
  }

  lemma OneLineJoin(a: string, b: string)
    requires OneLine(a) && OneLine(b)
    ensures OneLine(a + b)
  {
  }

  lemma HeadIsOneLine()
    ensures OneLine(HEAD) && HEAD[0] == '#'
  {
  }

  lemma TailIsOneLine()
    ensures OneLine(TAIL) && !IsSpace(Last(TAIL))
  {
  }

  lemma MiddleIsOneLine()
    ensures OneLine(MIDDLE)
  {
  }

  lemma HeaderIsComment(name: string)
    requires OneLine(name)
    ensures Comment(Header(name))
  {
    HeadIsOneLine();
    MiddleIsOneLine();
    TailIsOneLine();
    var a, b, c := HEAD + name, HEAD + name + MIDDLE, HEAD + name + MIDDLE + name;
    OneLineJoin(HEAD, name);
    OneLineJoin(a, MIDDLE);
    OneLineJoin(b, name);
    OneLineJoin(c, TAIL);
    assert Header(name) == c + TAIL;
    assert Last(c + TAIL) == Last(TAIL);
    assert (c + TAIL)[0] == HEAD[0];
  }

  lemma {:induction false} TextsAt(header: string, names: seq<string>, dicts: seq<Dict>)
    requires |names| == |dicts|
    ensures |Texts(header, names, dicts)| == |names|
    ensures forall i :: 0 <= i < |names| ==> Texts(header, names, dicts)[i] == (names[i], Body(header, dicts[i]))
  {
    if names != [] { TextsAt(header, names[1..], dicts[1..]); }
  }

  lemma {:induction false} ExtraDictsAt(all: Dict, extras: seq<Extra>, i: nat)
    requires i < |extras|
    ensures |ExtraDicts(all, extras)| == |extras|
    ensures ExtraDicts(all, extras)[i] == Pick(all, k => Goes(extras[i], k))
  {
    SplitSize(all, extras);
    if i > 0 { ExtraDictsAt(all, extras[1..], i - 1); }
  }

  /** Each file of a split is some selection of the keys. */
  lemma SplitAt(all: Dict, extras: seq<Extra>, i: nat) returns (keep: string -> bool)
    requires i <= |extras|
    ensures |Split(all, extras)| == |extras| + 1
    ensures Split(all, extras)[i] == Pick(all, keep)
    ensures keep == SelectionOf(extras, i)
  {
    SplitSize(all, extras);
    keep := SelectionOf(extras, i);
    if i > 0 { ExtraDictsAt(all, extras, i - 1); }
  }

  function SelectionOf(extras: seq<Extra>, i: nat): string -> bool
    requires i <= |extras|
  {
    if i == 0 then k => !Moves(extras, k) else k => Goes(extras[i - 1], k)
  }

  /** Output file `i` reads back as its selection of the settings. */
  lemma OutputAt(name: string, primary: string, all: Dict, i: nat)
    requires OneLine(name) && Clean(all) && i <= |Extras(name)|
    ensures var texts, extras := Outputs(name, primary, all), Extras(name);
            && |texts| == |extras| + 1
            && texts[i].0 == OutputNames(primary, extras)[i]
            && Read(texts[i].1) == Ok(Pick(all, SelectionOf(extras, i)))
  {
    var extras := Extras(name);
    SplitSize(all, extras);
    var keep := SplitAt(all, extras, i);
    TextsAt(Header(name), OutputNames(primary, extras), Split(all, extras));
    HeaderIsComment(name);
    PickClean(all, keep);
    BodyReadsBack(Header(name), Pick(all, keep));
  }

  /** A gathered configuration that a render can print. */
  predicate Sound(name: string, g: Gathered) {
    OneLine(name) && Clean(g.config) && Clean(g.chosen) && (name == "server" ==> g.primary == ".env")
  }

  lemma GatherSound(m: Machine)
    requires Printable(m) && Gather(m).Ok?
    ensures Sound(m.name, Gather(m).value)
    ensures Primary(m) == Ok(Gather(m).value.primary)
  {
    GatherClean(m);
  }

  lemma OutputNamesDiffer(name: string, primary: string, all: Dict)
    requires name == "server" ==> primary == ".env"
    ensures NamesDiffer(Outputs(name, primary, all))
  {
    var extras := Extras(name);
    SplitSize(all, extras);
    TextsAt(Header(name), OutputNames(primary, extras), Split(all, extras));
    assert |".env"| != |"livekit_sfu.env"|;
  }

  lemma TagStays(name: string)
    ensures !Moves(Extras(name), TAG)
  {
    assert TAG[0] != "LIVEKIT_SFU_"[0];
  }

  /** Output file `i` on disk after a render of `all`. */
  lemma AfterRender(name: string, primary: string, all: Dict, disk: Disk, i: nat)
    requires OneLine(name) && Clean(all) && (name == "server" ==> primary == ".env") && i <= |Extras(name)|
    ensures OnDisk(Write(disk, Outputs(name, primary, all)), OutputNames(primary, Extras(name))[i])
         == Ok(Pick(all, SelectionOf(Extras(name), i)))
  {
    OutputAt(name, primary, all, i);
    OutputNamesDiffer(name, primary, all);
    WrittenIsThere(disk, Outputs(name, primary, all), i);
  }

  /** What a second render works with. */
  lemma SecondRender(name: string, g: Gathered, previous: Dict, disk: Disk) returns (output: Dict)
    requires Sound(name, g) && Clean(previous)
    ensures OnDisk(Write(disk, Outputs(name, g.primary, Everything(g, previous))), g.primary) == Ok(output)
    ensures Clean(output) && output == Pick(Everything(g, previous), SelectionOf(Extras(name), 0))
    ensures SameMap(Everything(g, output), Everything(g, previous))
  {
    var all := Everything(g, previous);
    EverythingClean(g, previous);
    AfterRender(name, g.primary, all, disk, 0);
    output := Pick(all, SelectionOf(Extras(name), 0));
    PickClean(all, SelectionOf(Extras(name), 0));
    TagStays(name);
    GetPick(all, SelectionOf(Extras(name), 0), TAG);
    TagKept(g, previous, output);
  }

  /** Files rendered from the same settings agree, one by one. */
  lemma AgreesAt(name: string, primary: string, all: Dict, again: Dict, disk: Disk, i: nat)
    requires OneLine(name) && Clean(all) && Clean(again) && (name == "server" ==> primary == ".env")
    requires SameMap(all, again) && i < |Outputs(name, primary, again)|
    ensures Agrees(Write(disk, Outputs(name, primary, all)), Outputs(name, primary, again)[i])
  {
    OutputAt(name, primary, again, 0);
    OutputAt(name, primary, again, i);
    AfterRender(name, primary, all, disk, i);
    var keep := SelectionOf(Extras(name), i);
    forall k ensures Get(Pick(all, keep), k) == Get(Pick(again, keep), k) {
      GetPick(all, keep, k);
      GetPick(again, keep, k);
    }
  }

  /** After a render, `--check` has nothing to report. */
  lemma CheckAfterRender(m: Machine, previous: Dict, disk: Disk)
    requires Printable(m) && Clean(previous) && Render(m, previous).Ok?
    ensures CheckRows(m, Write(disk, Render(m, previous).value)) == Ok([])
  {
    var g := Gather(m).value;
    var all := Everything(g, previous);
    GatherSound(m);
    var output := SecondRender(m.name, g, previous, disk);
    var again := Everything(g, output);
    EverythingClean(g, previous);
    EverythingClean(g, output);
    var after, texts := Write(disk, Outputs(m.name, g.primary, all)), Outputs(m.name, g.primary, again);
    forall i | 0 <= i < |texts| ensures Agrees(after, texts[i]) {
      AgreesAt(m.name, g.primary, all, again, disk, i);
    }
    NoRows(after, texts);
  }
}
