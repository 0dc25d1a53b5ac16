/**
 * The nginx log analyzer's core: choosing the newest `-ui.` log by name,
 * splitting the file into lines, grouping request times by URL, and
 * ordering and truncating the per-URL statistics.
 */
module LogAnalyzer {
  import opened Wrappers
  import opened Text
  import opened Dates

  // ---------------------------------------------------------------- check_format

  /** `[\.0-9][g0-9][z0-9]` matches the three characters before position `e`. */
  predicate SuffixClassesAt(s: string, e: int)
  {
    && 3 <= e <= |s|
    && (s[e - 3] == '.' || IsDigit(s[e - 3]))
    && (s[e - 2] == 'g' || IsDigit(s[e - 2]))
    && (s[e - 1] == 'z' || IsDigit(s[e - 1]))
  }

  /** `check_format`: `$` matches at the end of the name and just before a final newline. */
  predicate CheckFormat(s: string)
    ensures CheckFormat(s) ==> |s| >= 3 && (s[|s| - 1] in "z\n" || IsDigit(s[|s| - 1]))
  {
    SuffixClassesAt(s, |s|) || (|s| >= 1 && s[|s| - 1] == '\n' && SuffixClassesAt(s, |s| - 1))
  }

  /** Gzipped logs pass. */
  lemma GzPasses(stem: string)
    ensures CheckFormat(stem + ".gz")
  {
    var s := stem + ".gz";
    assert s[|s| - 3..] == ".gz";
  }

  /** Plain logs whose name ends in a date pass. */
  lemma DigitsPass(stem: string, tail: string)
    requires |tail| == 3 && AllDigits(tail)
    ensures CheckFormat(stem + tail)
  {
    var s := stem + tail;
    assert s[|s| - 3..] == tail;
  }

  /** `.log` and `.bz2` names fail. */
  lemma LogAndBz2Fail(stem: string)
    ensures !CheckFormat(stem + ".log") && !CheckFormat(stem + ".bz2")
  {
    var s := stem + ".log";
    var t := stem + ".bz2";
    assert s[|s| - 3..] == "log" && t[|t| - 3..] == "bz2";
  }

  // ---------------------------------------------------------------- genf

  /** The first occurrence of `c` in `s`. */
  function IndexOfChar(s: string, c: char): (i: nat)
    requires c in s
    ensures i < |s| && s[i] == c && c !in s[..i]
  {
    if s[0] == c then 0
    else
      assert c in s[1..] by {
        var j :| 0 <= j < |s| && s[j] == c;
        assert s[1..][j - 1] == c;
      }
      var i := 1 + IndexOfChar(s[1..], c);
      assert s[..i] == [s[0]] + s[1..][..i - 1];
      i
  }

  /** `s.split(c)`: the pieces between occurrences of `c`, always at least one. */
  function Split(s: string, c: char): (ps: seq<string>)
    ensures |ps| >= 1
    ensures forall i | 0 <= i < |ps| :: c !in ps[i]
    decreases |s|
  {
    if c !in s then [s]
    else
      var i := IndexOfChar(s, c);
      [s[..i]] + Split(s[i + 1..], c)
  }

  /** `c.join(ps)` */
  function Join(ps: seq<string>, c: char): string
    requires |ps| >= 1
  {
    if |ps| == 1 then ps[0] else ps[0] + [c] + Join(ps[1..], c)
  }

  /** Joining the pieces gives back the text: nothing is lost or reordered. */
  lemma {:induction false} JoinSplit(s: string, c: char)
    ensures Join(Split(s, c), c) == s
    decreases |s|
  {
    if c in s {
      var i := IndexOfChar(s, c);
      var rest := s[i + 1..];
      JoinSplit(rest, c);
      assert Split(s, c)[1..] == Split(rest, c);
      assert s == s[..i] + [c] + rest;
    }
  }

  /** Splitting a join of pieces free of `c` gives the pieces back. */
  lemma {:induction false} SplitJoin(ps: seq<string>, c: char)
    requires |ps| >= 1 && forall i | 0 <= i < |ps| :: c !in ps[i]
    ensures Split(Join(ps, c), c) == ps
  {
    var s := Join(ps, c);
    if |ps| > 1 {
      var rest := Join(ps[1..], c);
      SplitJoin(ps[1..], c);
      assert s == ps[0] + [c] + rest;
      assert s[|ps[0]|] == c;
      var i := IndexOfChar(s, c);
      assert i == |ps[0]|;
      assert s[..i] == ps[0] && s[i + 1..] == rest;
    }
  }

  /** `genf`: the lines of the decoded file, in order. */
  function Lines(content: string): (ls: seq<string>)
    ensures |ls| >= 1
    ensures forall i | 0 <= i < |ls| :: '\n' !in ls[i]
  {
    Split(content, '\n')
  }

  // ---------------------------------------------------------------- get_last_logfile

  /** Python's `<=` on strings: code point by code point, a prefix first. */
  predicate LexLe(a: string, b: string)
  {
    a == [] || (b != [] && (a[0] < b[0] || (a[0] == b[0] && LexLe(a[1..], b[1..]))))
  }

  lemma {:induction false} LexLeTotal(a: string, b: string)
    ensures LexLe(a, b) || LexLe(b, a)
  {
    if a != [] && b != [] && a[0] == b[0] {
      LexLeTotal(a[1..], b[1..]);
    }
  }

  lemma {:induction false} LexLeTrans(a: string, b: string, c: string)
    requires LexLe(a, b) && LexLe(b, c)
    ensures LexLe(a, c)
  {
    if a != [] && b != [] && c != [] && a[0] == b[0] == c[0] {
      LexLeTrans(a[1..], b[1..], c[1..]);
    }
  }

  lemma {:induction false} LexLeAntisym(a: string, b: string)
    requires LexLe(a, b) && LexLe(b, a)
    ensures a == b
  {
    if a != [] && b != [] {
      LexLeAntisym(a[1..], b[1..]);
      assert a == [a[0]] + a[1..] && b == [b[0]] + b[1..];
    }
  }

  predicate SortedNames(s: seq<string>)
  {
    forall i, j | 0 <= i < j < |s| :: LexLe(s[i], s[j])
  }

  /** One step of sorting: `x` goes before the first name not below it. */
  function InsertName(x: string, s: seq<string>): (r: seq<string>)
    requires SortedNames(s)
    ensures SortedNames(r) && multiset(r) == multiset(s) + multiset{x}
  {
    if s == [] then [x]
    else if LexLe(x, s[0]) then
      forall j | 0 <= j < |s| ensures LexLe(x, s[j]) {
        if j > 0 { LexLeTrans(x, s[0], s[j]); }
      }
      [x] + s
    else
      LexLeTotal(x, s[0]);
      var t := InsertName(x, s[1..]);
      assert s == [s[0]] + s[1..];
      forall j | 0 <= j < |t| ensures LexLe(s[0], t[j]) {
        assert t[j] in multiset(t);
        if t[j] != x {
          var k :| 1 <= k < |s| && s[k] == t[j] by {
            assert t[j] in multiset(s[1..]);
            var k' :| 0 <= k' < |s[1..]| && s[1..][k'] == t[j];
            assert s[k' + 1] == t[j];
          }
        }
      }
      [s[0]] + t
  }

  /** `temp.sort()` */
  function SortNames(s: seq<string>): (r: seq<string>)
    ensures SortedNames(r) && multiset(r) == multiset(s)
  {
    if s == [] then []
    else
      assert s == [s[0]] + s[1..];
      InsertName(s[0], SortNames(s[1..]))
  }

  /** The last of the sorted names is one of them and no name is above it. */
  lemma LastSortedIsGreatest(s: seq<string>)
    requires s != []
    ensures var r := SortNames(s);
            |r| == |s| && r[|r| - 1] in s && forall x | x in s :: LexLe(x, r[|r| - 1])
  {
    var r := SortNames(s);
    assert |r| == |multiset(r)| == |multiset(s)| == |s|;
    assert r[|r| - 1] in multiset(r);
    forall x | x in s ensures LexLe(x, r[|r| - 1]) {
      assert x in multiset(s);
      var i :| 0 <= i < |r| && r[i] == x;
      if i < |r| - 1 {
        assert LexLe(r[i], r[|r| - 1]);
      } else {
        LexLeTotal(x, x);
      }
    }
  }

  /** `sorted(temp)[-1]`: the greatest of the names. */
  function Greatest(temp: seq<string>): (g: string)
    requires temp != []
    ensures g in temp && forall x | x in temp :: LexLe(x, g)
  {
    LastSortedIsGreatest(temp);
    var sorted := SortNames(temp);
    sorted[|sorted| - 1]
  }

  /** The names `os.walk` lists that contain `-ui.`, in listing order. */
  function Candidates(names: seq<string>): (r: seq<string>)
    ensures forall x :: x in r <==> x in names && Contains(x, "-ui.")
  {
    if names == [] then []
    else
      var r := Candidates(names[..|names| - 1]);
      var x := names[|names| - 1];
      assert names == names[..|names| - 1] + [x];
      if Contains(x, "-ui.") then r + [x] else r
  }

  /** A match of `\d*\.\d+|\d+` can start at `p`. */
  predicate NumberStart(s: string, p: int)
  {
    0 <= p < |s| && (IsDigit(s[p]) || (s[p] == '.' && p + 1 < |s| && IsDigit(s[p + 1])))
  }

  /** The leftmost start of a number at or after `p`. */
  function FirstNumberStart(s: string, p: nat): (r: Option<nat>)
    ensures r.Some? ==> p <= r.value && NumberStart(s, r.value)
    ensures r.Some? ==> forall j | p <= j < r.value :: !NumberStart(s, j)
    ensures r.None? ==> forall j | p <= j :: !NumberStart(s, j)
    decreases |s| - p
  {
    if p >= |s| then None
    else if NumberStart(s, p) then Some(p)
    else FirstNumberStart(s, p + 1)
  }

  /**
   * `re.findall(r'\d*\.\d+|\d+', s)[0]`, `None` where there is no match.
   * At the leftmost start the first alternative wins when the digits are
   * followed by a dot and a digit; otherwise the digits alone match.
   */
  function FirstNumber(s: string): (r: Option<string>)
    ensures r.Some? <==> exists p :: NumberStart(s, p)
    ensures r.Some? ==>
              exists p | NumberStart(s, p) :: (forall q | 0 <= q < p :: !NumberStart(s, q)) && NumberMatchAt(s, p, r.value)
  {
    match FirstNumberStart(s, 0)
    case None => None
    case Some(p) =>
      var e := RunEnd(s, p);
      if e + 1 < |s| && s[e] == '.' && IsDigit(s[e + 1]) then
        DecimalMatch(s, p, e, RunEnd(s, e + 1));
        Some(s[p..RunEnd(s, e + 1)])
      else
        DigitsMatch(s, p, e);
        Some(s[p..e])
  }

  /** Digits from `p` to `e`, a dot, and digits up to `f`: the first alternative matches. */
  lemma DecimalMatch(s: string, p: nat, e: nat, f: nat)
    requires p <= e && e + 1 < f <= |s| && s[e] == '.'
    requires forall k | p <= k < e :: IsDigit(s[k])
    requires forall k | e + 1 <= k < f :: IsDigit(s[k])
    requires f == |s| || !IsDigit(s[f])
    ensures NumberMatchAt(s, p, s[p..f])
  {
    var m := s[p..f];
    var d := e - p;
    assert m[d] == '.';
    assert m[..d] == s[p..e];
    assert m[d + 1..] == s[e + 1..f];
    assert !AllDigits(m) by { assert !IsDigit(m[d]); }
  }

  /** A non-empty run of digits from `p` to `e` not followed by a dot and a digit: the second alternative matches. */
  lemma DigitsMatch(s: string, p: nat, e: nat)
    requires p < e <= |s|
    requires forall k | p <= k < e :: IsDigit(s[k])
    requires e == |s| || !IsDigit(s[e])
    requires !(e + 1 < |s| && s[e] == '.' && IsDigit(s[e + 1]))
    ensures NumberMatchAt(s, p, s[p..e])
  {
    var m := s[p..e];
    assert AllDigits(m);
  }

  /**
   * `m` is what `\d*\.\d+|\d+` matches at `p`: a run of digits, or digits,
   * a dot and at least one digit, with neither alternative able to match
   * anything longer there.
   */
  ghost predicate NumberMatchAt(s: string, p: nat, m: string)
  {
    && p + |m| <= |s| && m == s[p..p + |m|]
    && ((m != [] && AllDigits(m))
        || exists d | 0 <= d < |m| - 1 :: m[d] == '.' && AllDigits(m[..d]) && AllDigits(m[d + 1..]))
    && (p + |m| < |s| ==> !IsDigit(s[p + |m|]))
    && (AllDigits(m) && p + |m| + 1 < |s| ==> !(s[p + |m|] == '.' && IsDigit(s[p + |m| + 1])))
  }

  /** The `Logfile` record. */
  datatype Logfile = Logfile(path: string, name: string, date: Date, isGz: bool)

  /**
   * `get_last_logfile` after the directory listing: `Success(None)` where it
   * returns `None`, `Failure` where the date lookup raises.
   */
  function ChooseLog(path: string, names: seq<string>): (r: Result<Option<Logfile>>)
    ensures Candidates(names) == [] ==> r == Success(None)
    ensures r.Failure? ==>
              && Candidates(names) != [] && CheckFormat(Greatest(Candidates(names)))
              && (FirstNumber(Greatest(Candidates(names))).None?
                  || ParseYearMonthDay(FirstNumber(Greatest(Candidates(names))).value).None?)
    ensures r.Success? && r.value.Some? ==> r.value.value.path == path && r.value.value.name in names
  {
    var temp := Candidates(names);
    if temp == [] then Success(None)
    else
      var last := Greatest(temp);
      if !CheckFormat(last) then Success(None)
      else match FirstNumber(last)
        case None => Failure
        case Some(digits) =>
          match ParseYearMonthDay(digits)
          case None => Failure
          case Some(date) => Success(Some(Logfile(path, last, date, Contains(last, ".gz"))))
  }

  /** `get_last_logfile`, given the file names of the directory's top level. */
  method GetLastLogfile(path: string, names: seq<string>) returns (r: Result<Option<Logfile>>)
    ensures r == ChooseLog(path, names)
  {
    var temp: seq<string> := [];
    var i := 0;
    while i < |names|
      invariant 0 <= i <= |names|
      invariant temp == Candidates(names[..i])
    {
      assert names[..i + 1][..i] == names[..i];
      if Contains(names[i], "-ui.") {
        temp := temp + [names[i]];
      }
      i := i + 1;
    }
    assert names[..i] == names;
    if temp == [] {
      return Success(None);
    }
    var sorted := SortNames(temp);
    assert |sorted| == |multiset(sorted)| == |temp|;
    var last := sorted[|sorted| - 1];
    if !CheckFormat(last) {
      return Success(None);
    }
    var digits := FirstNumber(last);
    if digits.None? {
      return Failure;
    }
    var date := ParseYearMonthDay(digits.value);
    if date.None? {
      return Failure;
    }
    r := Success(Some(Logfile(path, last, date.value, Contains(last, ".gz"))));
  }

  /**
   * The record names the greatest `-ui.` candidate, which passed
   * `check_format`; `isGz` says whether the name contains `.gz`, and the
   * date is the first number of the name read as `%Y%m%d`.
   */
  lemma ChosenIsGreatest(path: string, names: seq<string>)
    requires ChooseLog(path, names).Success? && ChooseLog(path, names).value.Some?
    ensures var log := ChooseLog(path, names).value.value;
            && log.path == path
            && log.name in names && Contains(log.name, "-ui.")
            && (forall x | x in names && Contains(x, "-ui.") :: LexLe(x, log.name))
            && CheckFormat(log.name)
            && log.isGz == Contains(log.name, ".gz")
            && FirstNumber(log.name).Some? && ParseYearMonthDay(FirstNumber(log.name).value) == Some(log.date)
  {
    ChosenIsLast(path, names);
    var temp := Candidates(names);
    forall x | x in names && Contains(x, "-ui.") ensures LexLe(x, Greatest(temp)) {
      assert x in temp;
    }
  }

  /** What is chosen is the greatest candidate, with the date its first number spells. */
  lemma ChosenIsLast(path: string, names: seq<string>)
    requires ChooseLog(path, names).Success? && ChooseLog(path, names).value.Some?
    ensures var log := ChooseLog(path, names).value.value;
            && Candidates(names) != [] && log.name == Greatest(Candidates(names))
            && log.path == path
            && CheckFormat(log.name)
            && log.isGz == Contains(log.name, ".gz")
            && FirstNumber(log.name).Some? && ParseYearMonthDay(FirstNumber(log.name).value) == Some(log.date)
  {
    var temp := Candidates(names);
    assert temp != [];
    var last := Greatest(temp);
    assert CheckFormat(last);
    var digits := FirstNumber(last);
    assert digits.Some?;
    var date := ParseYearMonthDay(digits.value);
    assert date.Some?;
    assert ChooseLog(path, names) == Success(Some(Logfile(path, last, date.value, Contains(last, ".gz"))));
  }

  /** When the greatest candidate fails `check_format` nothing is chosen, even if another candidate would pass. */
  lemma NoFallback(path: string, names: seq<string>, greatest: string)
    requires greatest in names && Contains(greatest, "-ui.") && !CheckFormat(greatest)
    requires forall x | x in names && Contains(x, "-ui.") :: LexLe(x, greatest)
    ensures ChooseLog(path, names) == Success(None)
  {
    var temp := Candidates(names);
    LastSortedIsGreatest(temp);
    var sorted := SortNames(temp);
    LexLeAntisym(sorted[|sorted| - 1], greatest);
  }

  /** Without a `-ui.` name there is nothing to choose. */
  lemma NoCandidates(path: string, names: seq<string>)
    requires forall x | x in names :: !Contains(x, "-ui.")
    ensures ChooseLog(path, names) == Success(None)
  {
    var c := Candidates(names);
    assert forall i | 0 <= i < |c| :: c[i] in c;
  }

  /** A stem without digits, and without a dot right before a digit, holds no number start. */
  predicate NumberFreeStem(stem: string)
  {
    && (forall p | 0 <= p < |stem| :: !IsDigit(stem[p]))
    && (forall p | 0 <= p < |stem| - 1 :: stem[p] == '.' ==> !IsDigit(stem[p + 1]))
    && (stem == [] || stem[|stem| - 1] != '.')
  }

  lemma FirstNumberAfterStem(stem: string, t: string, ext: string)
    requires NumberFreeStem(stem) && |t| >= 1 && AllDigits(t)
    ensures FirstNumberStart(stem + t + ext, 0) == Some(|stem|)
  {
    var s := stem + t + ext;
    var n := |stem|;
    forall j | 0 <= j < n ensures !NumberStart(s, j) {
      assert s[j] == stem[j];
      if j + 1 < n { assert s[j + 1] == stem[j + 1]; }
    }
    assert s[n] == t[0];
    assert NumberStart(s, n);
    var r := FirstNumberStart(s, 0);
    assert r.Some?;
    assert r.value >= n;
  }

  /**
   * A name made of a number-free stem, a `%Y%m%d` date and an extension that
   * does not continue the number (`.gz`, or nothing) carries that date.
   */
  lemma DatedName(stem: string, d: Date, ext: string)
    requires ValidDate(d) && NumberFreeStem(stem)
    requires ext == [] || (!IsDigit(ext[0]) && (ext[0] == '.' ==> |ext| < 2 || !IsDigit(ext[1])))
    ensures FirstNumber(stem + FormatYearMonthDay(d) + ext) == Some(FormatYearMonthDay(d))
    ensures ParseYearMonthDay(FirstNumber(stem + FormatYearMonthDay(d) + ext).value) == Some(d)
  {
    var t := FormatYearMonthDay(d);
    var s := stem + t + ext;
    var n := |stem|;
    assert |t| == 8 && AllDigits(t);
    FirstNumberAfterStem(stem, t, ext);
    forall j | n <= j < n + 8 ensures IsDigit(s[j]) {
      assert s[j] == t[j - n];
    }
    if ext != [] {
      assert s[n + 8] == ext[0];
      if |ext| >= 2 { assert s[n + 9] == ext[1]; }
    }
    RunEndAcross(s, n, n + 8);
    assert s[n..n + 8] == t;
    YearMonthDayRoundTrip(d);
  }

  /** Greedy `\d+` from `k` runs through digits up to `e` and stops at a non-digit there. */
  lemma {:induction false} RunEndAcross(s: string, k: nat, e: nat)
    requires k <= e <= |s| && (forall j | k <= j < e :: IsDigit(s[j])) && (e == |s| || !IsDigit(s[e]))
    ensures RunEnd(s, k) == e
    decreases e - k
  {
    if k < e {
      RunEndAcross(s, k + 1, e);
    }
  }

  // ---------------------------------------------------------------- parser

  /** Where the run of `\w` characters starting at `k` ends. */
  function WordRunEnd(s: string, k: nat): (e: nat)
    requires k <= |s|
    ensures k <= e <= |s| && (e == |s| || !IsWord(s[e]))
    ensures forall j | k <= j < e :: IsWord(s[j])
    decreases |s| - k
  {
    if k < |s| && IsWord(s[k]) then WordRunEnd(s, k + 1) else k
  }

  /** Where the run of `[^\s]` characters starting at `k` ends. */
  function NonSpaceRunEnd(s: string, k: nat): (e: nat)
    requires k <= |s|
    ensures k <= e <= |s| && (e == |s| || IsSpace(s[e]))
    ensures forall j | k <= j < e :: !IsSpace(s[j])
    decreases |s| - k
  {
    if k < |s| && !IsSpace(s[k]) then NonSpaceRunEnd(s, k + 1) else k
  }

  /**
   * `\w+\s[/][^\s]+` matches from `p`. The greedy `\w+` cannot give back
   * characters usefully, since a shorter run is followed by a word character.
   */
  predicate UrlMatchAt(s: string, p: int)
  {
    && 0 <= p < |s| && IsWord(s[p])
    && var e := WordRunEnd(s, p);
       e + 2 < |s| && IsSpace(s[e]) && s[e + 1] == '/' && !IsSpace(s[e + 2])
  }

  /** The leftmost match at or after `p`. */
  function FirstUrlMatch(s: string, p: nat): (r: Option<nat>)
    ensures r.Some? ==> p <= r.value && UrlMatchAt(s, r.value)
    ensures r.Some? ==> forall j | p <= j < r.value :: !UrlMatchAt(s, j)
    ensures r.None? ==> forall j | p <= j :: !UrlMatchAt(s, j)
    decreases |s| - p
  {
    if p >= |s| then None
    else if UrlMatchAt(s, p) then Some(p)
    else FirstUrlMatch(s, p + 1)
  }

  /** What `parser` gets from a line's URL pattern: no match, the URL, or an `IndexError`. */
  datatype UrlScan = NoUrl | Url(url: string) | SplitFails

  /**
   * `re.findall(r'\w+\s[/][^\s]+', line)[0].split(' ')[1]`. The match
   * holds no space but the one after the word, so where that whitespace is
   * a tab or another space character the split yields one piece and `[1]`
   * raises. A line has no URL exactly when the pattern matches nowhere in
   * it, and a URL taken from a line starts with `/`, has at least one more
   * character and holds no whitespace.
   */
  function LineUrl(line: string): (r: UrlScan)
    ensures r.NoUrl? <==> forall p :: !UrlMatchAt(line, p)
    ensures r.Url? ==> |r.url| >= 2 && r.url[0] == '/' && forall k | 0 <= k < |r.url| :: !IsSpace(r.url[k])
  {
    match FirstUrlMatch(line, 0)
    case None => NoUrl
    case Some(p) =>
      var e := WordRunEnd(line, p);
      if line[e] != ' ' then SplitFails
      else Url(line[e + 1..NonSpaceRunEnd(line, e + 2)])
  }

  /** A request line `METHOD /path ...` yields its path. */
  lemma RequestLineUrl(verb: string, path: string, rest: string)
    requires |verb| >= 1 && forall k | 0 <= k < |verb| :: IsWord(verb[k])
    requires |path| >= 2 && path[0] == '/' && forall k | 0 <= k < |path| :: !IsSpace(path[k])
    requires rest == [] || IsSpace(rest[0])
    ensures LineUrl(verb + " " + path + rest) == Url(path)
  {
    var s := verb + " " + path + rest;
    var n := |verb|;
    forall j | 0 <= j < n ensures IsWord(s[j]) {
      assert s[j] == verb[j];
    }
    assert s[n] == ' ';
    WordRunEndAcross(s, 0, n);
    assert s[n + 1] == '/' && s[n + 2] == path[1];
    assert UrlMatchAt(s, 0);
    forall j | n + 1 <= j < n + 1 + |path| ensures !IsSpace(s[j]) {
      assert s[j] == path[j - n - 1];
    }
    if rest != [] {
      assert s[n + 1 + |path|] == rest[0];
    }
    NonSpaceRunEndAcross(s, n + 2, n + 1 + |path|);
    assert s[n + 1..n + 1 + |path|] == path;
  }

  lemma {:induction false} WordRunEndAcross(s: string, k: nat, e: nat)
    requires k <= e <= |s| && (forall j | k <= j < e :: IsWord(s[j])) && (e == |s| || !IsWord(s[e]))
    ensures WordRunEnd(s, k) == e
    decreases e - k
  {
    if k < e {
      WordRunEndAcross(s, k + 1, e);
    }
  }

  lemma {:induction false} NonSpaceRunEndAcross(s: string, k: nat, e: nat)
    requires k <= e <= |s| && (forall j | k <= j < e :: !IsSpace(s[j])) && (e == |s| || IsSpace(s[e]))
    ensures NonSpaceRunEnd(s, k) == e
    decreases e - k
  {
    if k < e {
      NonSpaceRunEndAcross(s, k + 1, e);
    }
  }

  /** `float(line.split(' ')[-1])`, given `float` as `parseTime`; `None` where it raises. */
  function LineTime(line: string, parseTime: string -> Option<real>): Option<real>
  {
    var pieces := Split(line, ' ');
    parseTime(pieces[|pieces| - 1])
  }

  /**
   * What `parser` has built: the URL buckets of `temp` in insertion order,
   * its `total_count` and `total_request_time` entries, and the
   * `total_entries` and `errors` counters.
   */
  datatype Tally = Tally(buckets: seq<(string, seq<real>)>, totalCount: nat, totalTime: real,
                         entries: nat, errors: nat)

  predicate HasBucket(buckets: seq<(string, seq<real>)>, u: string)
  {
    exists i | 0 <= i < |buckets| :: buckets[i].0 == u
  }

  predicate UniqueUrls(buckets: seq<(string, seq<real>)>)
  {
    forall i, j | 0 <= i < j < |buckets| :: buckets[i].0 != buckets[j].0
  }

  function BucketIndex(buckets: seq<(string, seq<real>)>, u: string): (i: nat)
    requires HasBucket(buckets, u)
    ensures i < |buckets| && buckets[i].0 == u
  {
    if buckets[|buckets| - 1].0 == u then |buckets| - 1
    else
      assert HasBucket(buckets[..|buckets| - 1], u) by {
        var j :| 0 <= j < |buckets| && buckets[j].0 == u;
        assert buckets[..|buckets| - 1][j].0 == u;
      }
      BucketIndex(buckets[..|buckets| - 1], u)
  }

  /** `temp[url] = [t]` for a new URL, `temp[url].append(t)` for a known one. */
  function AddTime(buckets: seq<(string, seq<real>)>, u: string, x: real): (r: seq<(string, seq<real>)>)
    requires UniqueUrls(buckets)
    ensures UniqueUrls(r)
    ensures forall v :: HasBucket(r, v) <==> HasBucket(buckets, v) || v == u
  {
    if HasBucket(buckets, u) then
      var i := BucketIndex(buckets, u);
      var r := buckets[i := (u, buckets[i].1 + [x])];
      assert forall v :: HasBucket(r, v) <==> HasBucket(buckets, v) by {
        forall v ensures HasBucket(r, v) <==> HasBucket(buckets, v) {
          if HasBucket(buckets, v) {
            var j :| 0 <= j < |buckets| && buckets[j].0 == v;
            assert r[j].0 == v;
          }
          if HasBucket(r, v) {
            var j :| 0 <= j < |r| && r[j].0 == v;
            assert buckets[j].0 == v;
          }
        }
      }
      r
    else
      var r := buckets + [(u, [x])];
      assert forall v :: HasBucket(r, v) <==> HasBucket(buckets, v) || v == u by {
        forall v ensures HasBucket(r, v) <==> HasBucket(buckets, v) || v == u {
          if HasBucket(buckets, v) {
            var j :| 0 <= j < |buckets| && buckets[j].0 == v;
            assert r[j].0 == v;
          }
          if v == u { assert r[|buckets|].0 == v; }
          if HasBucket(r, v) && v != u {
            var j :| 0 <= j < |r| && r[j].0 == v;
            assert buckets[j].0 == v;
          }
        }
      }
      r
  }

  /** What `parser` reads from each line: what its URL pattern finds, and its time. */
  function Scans(lines: seq<string>, parseTime: string -> Option<real>): (ss: seq<(UrlScan, Option<real>)>)
    ensures |ss| == |lines|
    ensures forall i | 0 <= i < |lines| :: ss[i] == (LineUrl(lines[i]), LineTime(lines[i], parseTime))
  {
    seq(|lines|, i requires 0 <= i < |lines| => (LineUrl(lines[i]), LineTime(lines[i], parseTime)))
  }

  /**
   * One iteration of `parser`'s loop, given what the line's URL pattern
   * found and the line's time, which is only read when a URL was found.
   */
  function StepTally(t: Tally, scan: UrlScan, time: Option<real>): (r: Result<Tally>)
    requires UniqueUrls(t.buckets)
    ensures r.Success? ==> UniqueUrls(r.value.buckets)
    ensures r.Failure? <==> Raises(scan, time)
    ensures r.Success? ==> r.value.entries == t.entries + 1
    ensures r.Success? ==> r.value.errors == t.errors + (if scan.NoUrl? then 1 else 0)
    ensures r.Success? && scan.NoUrl? ==> r.value.buckets == t.buckets && r.value.totalCount == t.totalCount
    ensures r.Success? && scan.Url? ==> r.value.totalCount == t.totalCount + 1 && r.value.totalTime == t.totalTime + time.value
  {
    match scan
    case NoUrl => Success(t.(entries := t.entries + 1, errors := t.errors + 1))
    case SplitFails => Failure
    case Url(u) =>
      match time
      case None => Failure
      case Some(x) =>
        Success(t.(buckets := AddTime(t.buckets, u, x), totalCount := t.totalCount + 1,
                   totalTime := t.totalTime + x, entries := t.entries + 1))
  }

  /** `parser`'s loop over what it reads from the lines; `Failure` where it raises. */
  function ParseScans(ss: seq<(UrlScan, Option<real>)>): (r: Result<Tally>)
    ensures r.Success? ==> UniqueUrls(r.value.buckets)
    ensures r.Failure? <==> exists i | 0 <= i < |ss| :: Raises(ss[i].0, ss[i].1)
  {
    if ss == [] then Success(Tally([], 0, 0.0, 0, 0))
    else
      var n := |ss| - 1;
      assert forall i | 0 <= i < n :: ss[..n][i] == ss[i];
      match ParseScans(ss[..n])
      case Failure => Failure
      case Success(t) => StepTally(t, ss[n].0, ss[n].1)
  }

  /** A line on which `parser` raises: its URL split fails, or its last field is not a number. */
  predicate Raises(scan: UrlScan, time: Option<real>)
  {
    scan.SplitFails? || (scan.Url? && time.None?)
  }

  /** `parser` over the lines `genf` yields. */
  function ParseLines(lines: seq<string>, parseTime: string -> Option<real>): (r: Result<Tally>)
    ensures r.Success? ==> ValidTally(r.value) && r.value.entries == |lines|
    ensures r.Failure? <==> exists i | 0 <= i < |lines| :: Raises(LineUrl(lines[i]), LineTime(lines[i], parseTime))
  {
    var ss := Scans(lines, parseTime);
    if ParseScans(ss).Success? then ScansTally(ss); ParseScans(ss) else ParseScans(ss)
  }

  /** Once a line raises, the whole run raises. */
  lemma {:induction false} FailureSticks(ss: seq<(UrlScan, Option<real>)>, k: nat)
    requires k <= |ss| && ParseScans(ss[..k]) == Failure
    ensures ParseScans(ss) == Failure
    decreases |ss| - k
  {
    if k < |ss| {
      assert ss[..k + 1][..k] == ss[..k];
      FailureSticks(ss, k + 1);
    } else {
      assert ss[..k] == ss;
    }
  }

  lemma ParsePrefixStep(ss: seq<(UrlScan, Option<real>)>, i: nat, t: Tally)
    requires i < |ss| && ParseScans(ss[..i]) == Success(t)
    ensures ParseScans(ss[..i + 1]) == StepTally(t, ss[i].0, ss[i].1)
  {
    assert ss[..i + 1][..i] == ss[..i];
  }

  /** A line without a URL counts as an error. */
  lemma ParseNoUrl(ss: seq<(UrlScan, Option<real>)>, i: nat, t: Tally)
    requires i < |ss| && ParseScans(ss[..i]) == Success(t) && ss[i].0 == NoUrl
    ensures ParseScans(ss[..i + 1]) == Success(Tally(t.buckets, t.totalCount, t.totalTime, t.entries + 1, t.errors + 1))
  {
    ParsePrefixStep(ss, i, t);
  }

  /** A line with a URL and a time adds the time to the URL's bucket and to the totals. */
  lemma ParseUrlTime(ss: seq<(UrlScan, Option<real>)>, i: nat, t: Tally, u: string, x: real)
    requires i < |ss| && ParseScans(ss[..i]) == Success(t) && ss[i].0 == Url(u) && ss[i].1 == Some(x)
    ensures ParseScans(ss[..i + 1])
         == Success(Tally(AddTime(t.buckets, u, x), t.totalCount + 1, t.totalTime + x, t.entries + 1, t.errors))
  {
    ParsePrefixStep(ss, i, t);
  }

  /** A line whose URL split or time conversion raises makes the whole run raise. */
  lemma ParseRaises(ss: seq<(UrlScan, Option<real>)>, i: nat, t: Tally)
    requires i < |ss| && ParseScans(ss[..i]) == Success(t)
    requires ss[i].0.SplitFails? || (ss[i].0.Url? && ss[i].1.None?)
    ensures ParseScans(ss) == Failure
  {
    ParsePrefixStep(ss, i, t);
    FailureSticks(ss, i + 1);
  }

  /** `parser`: reads each line's URL and time, then tallies them. */
  method Parser(lines: seq<string>, parseTime: string -> Option<real>) returns (r: Result<Tally>)
    ensures r == ParseLines(lines, parseTime)
  {
    r := TallyScans(Scans(lines, parseTime));
  }

  /** `parser`'s loop, updating the buckets and counters in place, line by line. */
  method TallyScans(ss: seq<(UrlScan, Option<real>)>) returns (r: Result<Tally>)
    ensures r == ParseScans(ss)
  {
    var buckets: seq<(string, seq<real>)> := [];
    var totalCount: nat := 0;
    var totalTime: real := 0.0;
    var entries: nat := 0;
    var errors: nat := 0;
    var i := 0;
    while i < |ss|
      invariant 0 <= i <= |ss|
      invariant ParseScans(ss[..i]) == Success(Tally(buckets, totalCount, totalTime, entries, errors))
      decreases |ss| - i
    {
      ghost var t := Tally(buckets, totalCount, totalTime, entries, errors);
      entries := entries + 1;
      match ss[i].0 {
        case NoUrl =>
          ParseNoUrl(ss, i, t);
          errors := errors + 1;
        case SplitFails =>
          ParseRaises(ss, i, t);
          return Failure;
        case Url(u) =>
          var x := ss[i].1;
          if x.None? {
            ParseRaises(ss, i, t);
            return Failure;
          }
          ParseUrlTime(ss, i, t, u, x.value);
          buckets := AddTime(buckets, u, x.value);
          totalCount := totalCount + 1;
          totalTime := totalTime + x.value;
      }
      i := i + 1;
    }
    assert ss[..i] == ss;
    r := Success(Tally(buckets, totalCount, totalTime, entries, errors));
  }

  // ---------------------------------------------------------------- what parser builds

  function SumOf(xs: seq<real>): real
  {
    if xs == [] then 0.0 else SumOf(xs[..|xs| - 1]) + xs[|xs| - 1]
  }

  /** The number of times held in all buckets. */
  function CountOf(buckets: seq<(string, seq<real>)>): nat
  {
    if buckets == [] then 0 else CountOf(buckets[..|buckets| - 1]) + |buckets[|buckets| - 1].1|
  }

  /** The sum of the times held in all buckets. */
  function TimeOf(buckets: seq<(string, seq<real>)>): real
  {
    if buckets == [] then 0.0 else TimeOf(buckets[..|buckets| - 1]) + SumOf(buckets[|buckets| - 1].1)
  }

  /** The times bucketed under `u`; empty when `temp` has no such key. */
  function BucketOf(buckets: seq<(string, seq<real>)>, u: string): seq<real>
  {
    if HasBucket(buckets, u) then buckets[BucketIndex(buckets, u)].1 else []
  }

  /** A URL key as `parser` stores it: it begins with `/`, so it never meets `total_count` or `total_request_time`. */
  predicate UrlKey(u: string) { |u| >= 2 && u[0] == '/' }

  /**
   * What holds of `temp` and the counters after every line: every key is a
   * URL with a non-empty list, `total_count` counts the listed times and
   * `total_request_time` sums them, and every line was either bucketed or
   * counted as an error.
   */
  predicate ValidTally(t: Tally)
  {
    && UniqueUrls(t.buckets)
    && (forall i | 0 <= i < |t.buckets| :: UrlKey(t.buckets[i].0) && |t.buckets[i].1| >= 1)
    && CountOf(t.buckets) == t.totalCount
    && TimeOf(t.buckets) == t.totalTime
    && t.totalCount + t.errors == t.entries
  }

  /** The times of the lines whose URL is `u`, in line order. */
  function TimesFor(ss: seq<(UrlScan, Option<real>)>, u: string): seq<real>
  {
    if ss == [] then []
    else
      var last := ss[|ss| - 1];
      TimesFor(ss[..|ss| - 1], u) + (if last.0 == Url(u) && last.1.Some? then [last.1.value] else [])
  }

  lemma {:induction false} CountUpdate(b: seq<(string, seq<real>)>, i: nat, e: (string, seq<real>))
    requires i < |b|
    ensures CountOf(b[i := e]) == CountOf(b) - |b[i].1| + |e.1|
    ensures TimeOf(b[i := e]) == TimeOf(b) - SumOf(b[i].1) + SumOf(e.1)
    decreases |b|
  {
    var n := |b| - 1;
    if i < n {
      assert b[i := e][..n] == b[..n][i := e];
      CountUpdate(b[..n], i, e);
    } else {
      assert b[i := e][..n] == b[..n];
    }
  }

  lemma SumOfAppend(xs: seq<real>, x: real)
    ensures SumOf(xs + [x]) == SumOf(xs) + x
  {
    assert (xs + [x])[..|xs|] == xs;
  }

  lemma UniqueIndex(b: seq<(string, seq<real>)>, i: nat)
    requires UniqueUrls(b) && i < |b|
    ensures HasBucket(b, b[i].0) && BucketIndex(b, b[i].0) == i
  {
  }

  /** `AddTime` adds one time to one bucket and leaves every other bucket as it was. */
  lemma AddTimeEffect(b: seq<(string, seq<real>)>, u: string, x: real)
    requires UniqueUrls(b)
    ensures CountOf(AddTime(b, u, x)) == CountOf(b) + 1
    ensures TimeOf(AddTime(b, u, x)) == TimeOf(b) + x
    ensures forall v :: BucketOf(AddTime(b, u, x), v) == BucketOf(b, v) + (if v == u then [x] else [])
  {
    var r := AddTime(b, u, x);
    if HasBucket(b, u) {
      var i := BucketIndex(b, u);
      assert r == b[i := (u, b[i].1 + [x])];
      CountUpdate(b, i, (u, b[i].1 + [x]));
      SumOfAppend(b[i].1, x);
      forall v ensures BucketOf(r, v) == BucketOf(b, v) + (if v == u then [x] else []) {
        if HasBucket(b, v) {
          var j := BucketIndex(b, v);
          UniqueIndex(r, j);
        }
      }
    } else {
      assert r == b + [(u, [x])];
      assert r[..|b|] == b;
      assert SumOf([x]) == x by { assert [x][..0] == []; }
      forall v ensures BucketOf(r, v) == BucketOf(b, v) + (if v == u then [x] else []) {
        if HasBucket(b, v) {
          var j := BucketIndex(b, v);
          UniqueIndex(r, j);
        } else if v == u {
          UniqueIndex(r, |b|);
        }
      }
    }
  }

  /** `AddTime` keeps every bucket non-empty and every key a URL. */
  lemma AddTimeShape(b: seq<(string, seq<real>)>, u: string, x: real)
    requires UniqueUrls(b) && UrlKey(u)
    requires forall i | 0 <= i < |b| :: UrlKey(b[i].0) && |b[i].1| >= 1
    ensures forall i | 0 <= i < |AddTime(b, u, x)| :: UrlKey(AddTime(b, u, x)[i].0) && |AddTime(b, u, x)[i].1| >= 1
  {
  }

  /**
   * After any run of `parser` that does not raise, `temp` and the counters
   * keep `ValidTally`, every line has been counted, and the list under each
   * URL holds exactly that URL's request times, in the order of the log.
   */
  lemma ParsedTally(lines: seq<string>, parseTime: string -> Option<real>)
    requires ParseLines(lines, parseTime).Success?
    ensures ValidTally(ParseLines(lines, parseTime).value)
    ensures ParseLines(lines, parseTime).value.entries == |lines|
    ensures forall u :: BucketOf(ParseLines(lines, parseTime).value.buckets, u) == TimesFor(Scans(lines, parseTime), u)
  {
    var ss := Scans(lines, parseTime);
    forall k | 0 <= k < |ss| && ss[k].0.Url? ensures UrlKey(ss[k].0.url) {
      assert ss[k].0 == LineUrl(lines[k]);
    }
    ScansTally(ss);
  }

  lemma {:induction false} ScansTally(ss: seq<(UrlScan, Option<real>)>)
    requires ParseScans(ss).Success?
    requires forall k | 0 <= k < |ss| && ss[k].0.Url? :: UrlKey(ss[k].0.url)
    ensures ValidTally(ParseScans(ss).value)
    ensures ParseScans(ss).value.entries == |ss|
    ensures forall u :: BucketOf(ParseScans(ss).value.buckets, u) == TimesFor(ss, u)
  {
    if ss != [] {
      var n := |ss| - 1;
      var prefix := ss[..n];
      assert forall k | 0 <= k < n :: prefix[k] == ss[k];
      ScansTally(prefix);
      var t := ParseScans(prefix).value;
      match ss[n].0
      case NoUrl =>
      case SplitFails =>
      case Url(u) =>
        var x := ss[n].1.value;
        AddTimeEffect(t.buckets, u, x);
        AddTimeShape(t.buckets, u, x);
    }
  }

  /** `err_perc`; `None` where `total_entries` is zero and the division raises. */
  function ErrorPercent(t: Tally): (r: Option<real>)
    ensures r.Some? ==> 0.0 <= r.value
    ensures r.None? <==> t.entries == 0
  {
    if t.entries == 0 then None else Some(t.errors as real / t.entries as real * 100.0)
  }

  /**
   * Lines from `genf` are never empty, so `err_perc` never divides by zero
   * and never exceeds 100.
   */
  lemma GenfErrorPercent(content: string, parseTime: string -> Option<real>)
    requires ParseLines(Lines(content), parseTime).Success?
    ensures ErrorPercent(ParseLines(Lines(content), parseTime).value).Some?
    ensures ErrorPercent(ParseLines(Lines(content), parseTime).value).value <= 100.0
  {
    ParsedTally(Lines(content), parseTime);
    var t := ParseLines(Lines(content), parseTime).value;
    RatioAtMostOne(t.errors as real, t.entries as real);
  }

  lemma RatioAtMostOne(a: real, b: real)
    requires 0.0 <= a <= b && 0.0 < b
    ensures a / b * 100.0 <= 100.0
  {
    var q := a / b;
    assert q * b == a;
  }

  // ---------------------------------------------------------------- counter

  /** One entry of `counter`'s result, without its percentages, average and median. */
  datatype Row = Row(url: string, count: nat, timeSum: real, timeMax: real)

  function MaxOf(xs: seq<real>): (m: real)
    requires |xs| >= 1
    ensures m in xs && forall k | 0 <= k < |xs| :: xs[k] <= m
  {
    if |xs| == 1 then xs[0]
    else
      var m := MaxOf(xs[..|xs| - 1]);
      assert forall k | 0 <= k < |xs| - 1 :: xs[k] == xs[..|xs| - 1][k];
      if xs[|xs| - 1] > m then xs[|xs| - 1] else m
  }

  /**
   * The entry `counter` builds for one URL bucket; `None` where building it
   * raises: `count_perc` divides by `total_count`, `time_perc` by
   * `total_request_time`, and an empty bucket makes `time_avg` divide by zero.
   */
  function RowOf(bucket: (string, seq<real>), totalCount: nat, totalTime: real): (r: Option<Row>)
    ensures r.Some? <==> |bucket.1| >= 1 && totalCount != 0 && totalTime != 0.0
  {
    if |bucket.1| == 0 || totalCount == 0 || totalTime == 0.0 then None
    else Some(Row(bucket.0, |bucket.1|, SumOf(bucket.1), MaxOf(bucket.1)))
  }

  /** `result` before sorting: one entry per URL bucket, in `temp`'s order. */
  function RowsOf(buckets: seq<(string, seq<real>)>, totalCount: nat, totalTime: real): (r: Option<seq<Row>>)
    ensures r.Some? <==> forall i | 0 <= i < |buckets| :: RowOf(buckets[i], totalCount, totalTime).Some?
    ensures r.Some? ==> |r.value| == |buckets|
    ensures r.Some? ==> forall i | 0 <= i < |buckets| :: RowOf(buckets[i], totalCount, totalTime) == Some(r.value[i])
  {
    if buckets == [] then Some([])
    else
      var n := |buckets| - 1;
      assert forall i | 0 <= i < n :: buckets[..n][i] == buckets[i];
      match RowsOf(buckets[..n], totalCount, totalTime)
      case None => None
      case Some(rs) =>
        match RowOf(buckets[n], totalCount, totalTime)
        case None => None
        case Some(row) => Some(rs + [row])
  }

  /** Ordered by `time_sum`, largest first. */
  predicate HeavierFirst(rs: seq<Row>)
  {
    forall i, j | 0 <= i < j < |rs| :: rs[i].timeSum >= rs[j].timeSum
  }

  /** Places `x` after every row at least as heavy, as a stable descending sort does for a later element. */
  function InsertRow(sorted: seq<Row>, x: Row): (r: seq<Row>)
    ensures multiset(r) == multiset(sorted) + multiset{x}
    ensures |r| == |sorted| + 1
  {
    if sorted == [] then [x]
    else if sorted[0].timeSum >= x.timeSum then
      assert sorted == [sorted[0]] + sorted[1..];
      [sorted[0]] + InsertRow(sorted[1..], x)
    else
      [x] + sorted
  }

  /** Inserting into a list ordered largest first keeps it ordered, and its head is `x` or the old head. */
  lemma {:induction false} InsertRowOrdered(sorted: seq<Row>, x: Row)
    requires HeavierFirst(sorted)
    ensures HeavierFirst(InsertRow(sorted, x))
    ensures var r := InsertRow(sorted, x); r[0] == x || (sorted != [] && r[0] == sorted[0])
  {
    if sorted != [] && sorted[0].timeSum >= x.timeSum {
      var tail := sorted[1..];
      TailOrdered(sorted);
      InsertRowOrdered(tail, x);
      ConsOrdered(sorted[0], InsertRow(tail, x));
    }
  }

  lemma TailOrdered(rs: seq<Row>)
    requires rs != [] && HeavierFirst(rs)
    ensures HeavierFirst(rs[1..])
  {
    var tail := rs[1..];
    forall i, j | 0 <= i < j < |tail| ensures tail[i].timeSum >= tail[j].timeSum {
      assert tail[i] == rs[i + 1] && tail[j] == rs[j + 1];
    }
  }

  lemma ConsOrdered(a: Row, rest: seq<Row>)
    requires HeavierFirst(rest) && (rest == [] || rest[0].timeSum <= a.timeSum)
    ensures HeavierFirst([a] + rest)
  {
    var r := [a] + rest;
    forall i, j | 0 <= i < j < |r| ensures r[i].timeSum >= r[j].timeSum {
      assert r[j] == rest[j - 1];
      if i == 0 {
        assert rest[0].timeSum >= rest[j - 1].timeSum || j == 1;
      } else {
        assert r[i] == rest[i - 1];
      }
    }
  }

  /** `sorted(result, key=lambda x: x['time_sum'], reverse=True)` */
  function SortRows(rs: seq<Row>): (r: seq<Row>)
    ensures HeavierFirst(r)
    ensures multiset(r) == multiset(rs)
    ensures |r| == |rs|
  {
    if rs == [] then []
    else
      var n := |rs| - 1;
      assert rs == rs[..n] + [rs[n]];
      InsertRowOrdered(SortRows(rs[..n]), rs[n]);
      InsertRow(SortRows(rs[..n]), rs[n])
  }

  /** `xs[:limit]`, a negative `limit` counting from the end. */
  function Slice<T>(xs: seq<T>, limit: int): (r: seq<T>)
    ensures limit >= 0 ==> |r| == if limit < |xs| then limit else |xs|
    ensures limit < 0 ==> |r| == if |xs| + limit > 0 then |xs| + limit else 0
    ensures r == xs[..|r|]
  {
    if limit >= 0 then (if limit < |xs| then xs[..limit] else xs)
    else if |xs| + limit > 0 then xs[..|xs| + limit]
    else []
  }

  /** `counter`; `Failure` where one of its divisions raises. */
  function CounterSpec(t: Tally, limit: int): (r: Result<seq<Row>>)
    ensures r.Success? ==> HeavierFirst(r.value) && |r.value| <= |t.buckets|
    ensures r.Failure? <==> exists i | 0 <= i < |t.buckets| :: RowOf(t.buckets[i], t.totalCount, t.totalTime).None?
  {
    match RowsOf(t.buckets, t.totalCount, t.totalTime)
    case None => Failure
    case Some(rows) => SortedCut(rows, limit); Success(Slice(SortRows(rows), limit))
  }

  /** `counter`: `result` built in a loop over the buckets, then sorted and cut to `limit`. */
  method Counter(t: Tally, limit: int) returns (r: Result<seq<Row>>)
    ensures r == CounterSpec(t, limit)
  {
    var result: seq<Row> := [];
    var i := 0;
    while i < |t.buckets|
      invariant 0 <= i <= |t.buckets| && |result| == i
      invariant forall k | 0 <= k < i :: RowOf(t.buckets[k], t.totalCount, t.totalTime) == Some(result[k])
      decreases |t.buckets| - i
    {
      var row := RowOf(t.buckets[i], t.totalCount, t.totalTime);
      if row.None? {
        return Failure;
      }
      result := result + [row.value];
      i := i + 1;
    }
    var rows := RowsOf(t.buckets, t.totalCount, t.totalTime);
    assert rows.Some?;
    assert forall k | 0 <= k < |result| :: rows.value[k] == result[k];
    assert rows.value == result;
    r := Success(Slice(SortRows(result), limit));
  }

  /**
   * Over what `parser` builds, `counter` raises exactly when there are URL
   * buckets and their request times sum to zero.
   */
  lemma CounterFails(t: Tally, limit: int)
    requires ValidTally(t)
    ensures CounterSpec(t, limit).Failure? <==> |t.buckets| >= 1 && t.totalTime == 0.0
  {
    if |t.buckets| >= 1 {
      BucketsCount(t.buckets, 0);
    }
  }

  lemma {:induction false} BucketsCount(b: seq<(string, seq<real>)>, i: nat)
    requires i < |b|
    ensures CountOf(b) >= |b[i].1|
    decreases |b|
  {
    var n := |b| - 1;
    if i < n {
      BucketsCount(b[..n], i);
    }
  }

  /** `row` is the entry for `bucket`: its URL, its length, its sum and its largest time. */
  predicate Summarises(row: Row, bucket: (string, seq<real>))
  {
    && row.url == bucket.0 && row.count == |bucket.1|
    && row.timeSum == SumOf(bucket.1) && row.timeMax in bucket.1
    && forall k | 0 <= k < |bucket.1| :: bucket.1[k] <= row.timeMax
  }

  /** Every entry of `result` before sorting is the entry of one bucket. */
  lemma RowsSummarise(buckets: seq<(string, seq<real>)>, totalCount: nat, totalTime: real, row: Row)
    requires RowsOf(buckets, totalCount, totalTime).Some?
    requires row in RowsOf(buckets, totalCount, totalTime).value
    ensures exists i | 0 <= i < |buckets| :: Summarises(row, buckets[i])
  {
    var rows := RowsOf(buckets, totalCount, totalTime).value;
    var i :| 0 <= i < |rows| && rows[i] == row;
    assert RowOf(buckets[i], totalCount, totalTime) == Some(row);
    assert Summarises(row, buckets[i]);
  }

  /** Sorting then cutting keeps the order, bounds the length and invents no entry. */
  lemma SortedCut(rows: seq<Row>, limit: int)
    ensures HeavierFirst(Slice(SortRows(rows), limit))
    ensures limit >= 0 ==> |Slice(SortRows(rows), limit)| <= limit
    ensures limit >= |rows| ==> |Slice(SortRows(rows), limit)| == |rows|
    ensures forall row | row in Slice(SortRows(rows), limit) :: row in rows
    ensures multiset(Slice(SortRows(rows), limit)) <= multiset(rows)
    ensures limit >= |rows| ==> multiset(Slice(SortRows(rows), limit)) == multiset(rows)
  {
    var sorted := SortRows(rows);
    var rs := Slice(sorted, limit);
    assert rs == sorted[..|rs|];
    assert sorted == rs + sorted[|rs|..];
    forall row | row in rs ensures row in rows {
      assert row in multiset(sorted);
    }
  }

  /**
   * `counter`'s report: entries ordered by `time_sum` largest first, at most
   * `limit` of them (all of them when `limit` is at least the number of
   * URLs), each one the entry of a URL bucket of `temp`.
   */
  lemma CounterReport(t: Tally, limit: int)
    requires CounterSpec(t, limit).Success?
    ensures HeavierFirst(CounterSpec(t, limit).value)
    ensures limit >= 0 ==> |CounterSpec(t, limit).value| <= limit
    ensures limit >= |t.buckets| ==> |CounterSpec(t, limit).value| == |t.buckets|
    ensures forall row | row in CounterSpec(t, limit).value ::
              exists i | 0 <= i < |t.buckets| :: Summarises(row, t.buckets[i])
    ensures limit >= |t.buckets| ==>
              forall i | 0 <= i < |t.buckets| :: Reported(CounterSpec(t, limit).value, t.buckets[i])
  {
    var rows := RowsOf(t.buckets, t.totalCount, t.totalTime).value;
    SortedCut(rows, limit);
    if limit >= |t.buckets| {
      EveryBucketReported(t.buckets, t.totalCount, t.totalTime, rows, limit);
    }
    forall row | row in CounterSpec(t, limit).value
      ensures exists i | 0 <= i < |t.buckets| :: Summarises(row, t.buckets[i])
    {
      RowsSummarise(t.buckets, t.totalCount, t.totalTime, row);
    }
  }

  /** With a limit no smaller than the number of rows, the cut of the sorted rows summarises every bucket. */
  lemma EveryBucketReported(buckets: seq<(string, seq<real>)>, totalCount: nat, totalTime: real, rows: seq<Row>, limit: int)
    requires RowsOf(buckets, totalCount, totalTime) == Some(rows) && limit >= |buckets|
    ensures forall i | 0 <= i < |buckets| :: Reported(Slice(SortRows(rows), limit), buckets[i])
  {
    forall i | 0 <= i < |buckets| ensures Summarises(rows[i], buckets[i]) {
      assert RowOf(buckets[i], totalCount, totalTime) == Some(rows[i]);
    }
    var sorted := SortRows(rows);
    assert Slice(sorted, limit) == sorted;
    CoveredByPermutation(buckets, rows, sorted);
  }

  lemma CoveredByPermutation(buckets: seq<(string, seq<real>)>, rows: seq<Row>, sorted: seq<Row>)
    requires |rows| == |buckets| && multiset(sorted) == multiset(rows)
    requires forall i | 0 <= i < |buckets| :: Summarises(rows[i], buckets[i])
    ensures forall i | 0 <= i < |buckets| :: Reported(sorted, buckets[i])
  {
    forall i | 0 <= i < |buckets| ensures Reported(sorted, buckets[i]) {
      var row := rows[i];
      assert row in multiset(rows);
      assert row in sorted && Summarises(row, buckets[i]);
    }
  }

  /** Some entry of `rows` is the entry for `bucket`. */
  predicate Reported(rows: seq<Row>, bucket: (string, seq<real>))
  {
    exists row | row in rows :: Summarises(row, bucket)
  }

  /** In a list ordered largest first, what a cut leaves out is no heavier than what it keeps. */
  lemma CutOfOrdered(sorted: seq<Row>, limit: int, x: Row)
    requires HeavierFirst(sorted) && x in sorted && x !in Slice(sorted, limit)
    ensures forall row | row in Slice(sorted, limit) :: x.timeSum <= row.timeSum
  {
    var rs := Slice(sorted, limit);
    var j :| 0 <= j < |sorted| && sorted[j] == x;
    assert j >= |rs|;
    forall row | row in rs ensures x.timeSum <= row.timeSum {
      var k :| 0 <= k < |rs| && rs[k] == row;
      assert sorted[k] == row;
    }
  }

  /**
   * A URL left out of the report is no heavier than any URL in it: the cut
   * keeps the entries with the largest `time_sum`.
   */
  lemma CutKeepsHeaviest(t: Tally, limit: int, i: nat)
    requires CounterSpec(t, limit).Success? && i < |t.buckets|
    requires RowOf(t.buckets[i], t.totalCount, t.totalTime).value !in CounterSpec(t, limit).value
    ensures forall row | row in CounterSpec(t, limit).value :: SumOf(t.buckets[i].1) <= row.timeSum
  {
    var rows := RowsOf(t.buckets, t.totalCount, t.totalTime).value;
    var sorted := SortRows(rows);
    var x := rows[i];
    assert x in multiset(rows);
    CutOfOrdered(sorted, limit, x);
  }
}
