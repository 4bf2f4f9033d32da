/**
 * The string helpers of the server's utilities: `tokenize`, `trim`, `reduce` and the
 * `memrchr` fallback. C++ strings are modelled as `seq<char>`; each routine that
 * rewrites its in/out string argument returns the new string instead. The
 * `std::string` search members it relies on (`find_first_of`, `find_first_not_of`,
 * `find_last_not_of`) are specified here as functions, `npos` being `None`.
 */
module StringUtils {
  import opened Wrappers

  /** The default whitespace set: tab, form feed, vertical tab, newline, carriage return, space. */
  const WHITESPACES: set<char> := {'\t', 12 as char, 11 as char, '\n', '\r', ' '}

  // ---------------------------------------------------------------------------
  // The std::string searches
  // ---------------------------------------------------------------------------

  /** `s.find_first_of(set, from)`. */
  function FindFirstOf(s: string, chars: set<char>, from: nat): (r: Option<nat>)
    ensures r.Some? ==> from <= r.value < |s| && s[r.value] in chars
    ensures r.Some? ==> forall k :: from <= k < r.value ==> s[k] !in chars
    ensures r.None? ==> forall k :: from <= k < |s| ==> s[k] !in chars
    decreases |s| - from
  {
    if from >= |s| then None
    else if s[from] in chars then Some(from)
    else FindFirstOf(s, chars, from + 1)
  }

  /** `s.find_first_not_of(set, from)`. */
  function FindFirstNotOf(s: string, chars: set<char>, from: nat): (r: Option<nat>)
    ensures r.Some? ==> from <= r.value < |s| && s[r.value] !in chars
    ensures r.Some? ==> forall k :: from <= k < r.value ==> s[k] in chars
    ensures r.None? ==> forall k :: from <= k < |s| ==> s[k] in chars
    decreases |s| - from
  {
    if from >= |s| then None
    else if s[from] !in chars then Some(from)
    else FindFirstNotOf(s, chars, from + 1)
  }

  /** `s.find_last_not_of(set)` restricted to the first n characters. */
  function FindLastNotOf(s: string, chars: set<char>, n: nat): (r: Option<nat>)
    requires n <= |s|
    ensures r.Some? ==> r.value < n && s[r.value] !in chars
    ensures r.Some? ==> forall k :: r.value < k < n ==> s[k] in chars
    ensures r.None? ==> forall k :: 0 <= k < n ==> s[k] in chars
  {
    if n == 0 then None
    else if s[n - 1] !in chars then Some(n - 1)
    else FindLastNotOf(s, chars, n - 1)
  }

  // ---------------------------------------------------------------------------
  // tokenize: splitting on a delimiter and joining back
  // ---------------------------------------------------------------------------

  /** The number of occurrences of d in s. */
  function Count(s: string, d: char): nat
  {
    if s == [] then 0 else (if s[0] == d then 1 else 0) + Count(s[1..], d)
  }

  /** Appending one character adds one occurrence exactly when it is d. */
  lemma {:induction false} CountAppend(s: string, c: char, d: char)
    ensures Count(s + [c], d) == Count(s, d) + (if c == d then 1 else 0)
  {
    if s == [] {
      assert s + [c] == [c];
    } else {
      assert (s + [c])[1..] == s[1..] + [c];
      CountAppend(s[1..], c, d);
    }
  }

  /** Every character of s is d exactly when all |s| characters count. */
  lemma {:induction false} CountAll(s: string, d: char)
    ensures Count(s, d) <= |s|
    ensures Count(s, d) == |s| <==> forall k :: 0 <= k < |s| ==> s[k] == d
  {
    if s != [] {
      CountAll(s[1..], d);
      if forall k :: 0 <= k < |s| ==> s[k] == d {
        forall k | 0 <= k < |s[1..]|
          ensures s[1..][k] == d
        {
          assert s[1..][k] == s[k + 1];
        }
      }
      if Count(s, d) == |s| {
        forall k | 0 <= k < |s|
          ensures s[k] == d
        {
          if k > 0 {
            assert s[k] == s[1..][k - 1];
          }
        }
      }
    }
  }

  /**
   * The pieces of s between occurrences of d, empty pieces included: the value
   * that `tokenize` leaves in its output vector.
   */
  function Split(s: string, d: char): (r: seq<string>)
    ensures |r| >= 1
  {
    if s == [] then [""]
    else
      var rest := Split(s[1..], d);
      if s[0] == d then [""] + rest else [[s[0]] + rest[0]] + rest[1..]
  }

  /** The pieces put back together with one d between neighbours. */
  function Join(parts: seq<string>, d: char): string
    requires |parts| >= 1
  {
    if |parts| == 1 then parts[0] else parts[0] + [d] + Join(parts[1..], d)
  }

  /** There is one piece more than there are delimiters. */
  lemma {:induction false} SplitCount(s: string, d: char)
    ensures |Split(s, d)| == Count(s, d) + 1
  {
    if s != [] {
      SplitCount(s[1..], d);
    }
  }

  /** No piece contains the delimiter. */
  lemma {:induction false} SplitPiecesHaveNoDelimiter(s: string, d: char)
    ensures forall i :: 0 <= i < |Split(s, d)| ==> d !in Split(s, d)[i]
  {
    if s != [] {
      SplitPiecesHaveNoDelimiter(s[1..], d);
    }
  }

  /** Joining the pieces with the delimiter gives back the input. */
  lemma {:induction false} JoinSplit(s: string, d: char)
    ensures Join(Split(s, d), d) == s
  {
    if s != [] {
      var rest := Split(s[1..], d);
      JoinSplit(s[1..], d);
      if s[0] == d {
        assert ([""] + rest)[1..] == rest;
      } else if |rest| == 1 {
        assert Join(Split(s, d), d) == [s[0]] + rest[0];
      } else {
        var parts := Split(s, d);
        assert parts[1..] == rest[1..];
        assert Join(rest, d) == rest[0] + [d] + Join(rest[1..], d);
        assert Join(parts, d) == [s[0]] + rest[0] + [d] + Join(rest[1..], d);
      }
    }
  }

  /** A prefix without the delimiter is glued onto the first piece of what follows. */
  lemma {:induction false} SplitPrepend(a: string, b: string, d: char)
    requires d !in a
    ensures Split(a + b, d) == [a + Split(b, d)[0]] + Split(b, d)[1..]
  {
    if a == [] {
      assert a + b == b;
      assert a + Split(b, d)[0] == Split(b, d)[0];
      assert [Split(b, d)[0]] + Split(b, d)[1..] == Split(b, d);
    } else {
      assert (a + b)[0] == a[0];
      assert (a + b)[1..] == a[1..] + b;
      SplitPrepend(a[1..], b, d);
      assert [a[0]] + (a[1..] + Split(b, d)[0]) == a + Split(b, d)[0];
    }
  }

  /** Splitting the joined pieces gives them back when none contains the delimiter. */
  lemma {:induction false} SplitJoin(parts: seq<string>, d: char)
    requires |parts| >= 1
    requires forall i :: 0 <= i < |parts| ==> d !in parts[i]
    ensures Split(Join(parts, d), d) == parts
  {
    if |parts| == 1 {
      SplitPrepend(parts[0], [], d);
      assert parts[0] + [] == parts[0];
    } else {
      SplitJoin(parts[1..], d);
      var tail := [d] + Join(parts[1..], d);
      assert parts[0] + [d] + Join(parts[1..], d) == parts[0] + tail;
      SplitPrepend(parts[0], tail, d);
      assert tail[1..] == Join(parts[1..], d);
      assert parts[0] + "" == parts[0];
    }
  }

  /** The first piece ends at the first delimiter at or after the start. */
  lemma SplitAtFirst(s: string, d: char, start: nat, k: nat)
    requires start <= k < |s| && s[k] == d
    requires forall j :: start <= j < k ==> s[j] != d
    ensures Split(s[start..], d) == [s[start..k]] + Split(s[k + 1..], d)
  {
    var a, b := s[start..k], s[k..];
    assert s[start..] == a + b;
    assert b[1..] == s[k + 1..];
    SplitPrepend(a, b, d);
    assert a + "" == a;
  }

  /** Without a delimiter the rest of the string is one piece. */
  lemma SplitWithoutDelimiter(s: string, d: char)
    requires d !in s
    ensures Split(s, d) == [s]
  {
    SplitPrepend(s, [], d);
    assert s + [] == s;
  }

  /** The loop invariant of `tokenize` survives appending the piece before the delimiter at k. */
  lemma TokenizeRound(data: string, d: char, elems: seq<string>, start: nat, k: nat)
    requires start <= k < |data| && data[k] == d
    requires forall j :: start <= j < k ==> data[j] != d
    ensures (elems + [data[start..k]]) + Split(data[k + 1..], d) == elems + Split(data[start..], d)
  {
    SplitAtFirst(data, d, start, k);
    assert (elems + [data[start..k]]) + Split(data[k + 1..], d) == elems + ([data[start..k]] + Split(data[k + 1..], d));
  }

  /**
   * `tokenize`: the output is cleared, then every piece up to each delimiter found
   * by `find_first_of` is appended, and finally the piece after the last one.
   */
  method Tokenize(data: string, delim: char) returns (elems: seq<string>)
    ensures elems == Split(data, delim)
  {
    elems := [];
    var start: nat := 0;
    var end := FindFirstOf(data, {delim}, 0);
    while end.Some?
      invariant start <= |data|
      invariant end == FindFirstOf(data, {delim}, start)
      invariant elems + Split(data[start..], delim) == Split(data, delim)
      decreases |data| - start
    {
      TokenizeRound(data, delim, elems, start, end.value);
      elems := elems + [data[start..end.value]];
      start := end.value + 1;
      end := FindFirstOf(data, {delim}, start);
    }
    SplitWithoutDelimiter(data[start..], delim);
    elems := elems + [data[start..]];
  }

  // ---------------------------------------------------------------------------
  // trim
  // ---------------------------------------------------------------------------

  /** Every character of s belongs to ws. */
  predicate AllIn(s: string, ws: set<char>)
  {
    forall i :: 0 <= i < |s| ==> s[i] in ws
  }

  /** s without its longest prefix of characters from ws. */
  function StripLeft(s: string, ws: set<char>): (r: string)
    ensures |r| <= |s|
    ensures r != [] ==> r[0] !in ws
  {
    if s != [] && s[0] in ws then StripLeft(s[1..], ws) else s
  }

  /** s without its longest suffix of characters from ws. */
  function StripRight(s: string, ws: set<char>): (r: string)
    ensures |r| <= |s|
    ensures r != [] ==> r[|r| - 1] !in ws
  {
    if s != [] && s[|s| - 1] in ws then StripRight(s[..|s| - 1], ws) else s
  }

  /** StripLeft drops a prefix made only of ws and keeps the rest. */
  lemma {:induction false} StripLeftSplits(s: string, ws: set<char>)
    ensures var k := |s| - |StripLeft(s, ws)|; StripLeft(s, ws) == s[k..] && AllIn(s[..k], ws)
  {
    if s != [] && s[0] in ws {
      var t := s[1..];
      StripLeftSplits(t, ws);
      var k := |t| - |StripLeft(t, ws)|;
      assert t[k..] == s[k + 1..];
      forall i | 0 <= i < k + 1
        ensures s[i] in ws
      {
        if i > 0 {
          assert s[i] == t[..k][i - 1];
        }
      }
      assert AllIn(s[..k + 1], ws);
    }
  }

  /** StripRight drops a suffix made only of ws and keeps the rest. */
  lemma {:induction false} StripRightSplits(s: string, ws: set<char>)
    ensures var k := |StripRight(s, ws)|; StripRight(s, ws) == s[..k] && AllIn(s[k..], ws)
  {
    if s != [] && s[|s| - 1] in ws {
      var s' := s[..|s| - 1];
      StripRightSplits(s', ws);
      var k := |StripRight(s', ws)|;
      assert s'[..k] == s[..k];
      assert s[k..] == s'[k..] + [s[|s| - 1]];
    }
  }

  /** What `trim` leaves: s without leading and trailing characters from ws. */
  function Trimmed(s: string, ws: set<char>): string
  {
    StripRight(StripLeft(s, ws), ws)
  }

  /** The trimmed string is the middle of s between a leading and a trailing run of ws. */
  lemma TrimmedIsMiddle(s: string, ws: set<char>)
    ensures exists i, j :: 0 <= i <= j <= |s| && Trimmed(s, ws) == s[i..j] && AllIn(s[..i], ws) && AllIn(s[j..], ws)
  {
    var l := StripLeft(s, ws);
    StripLeftSplits(s, ws);
    StripRightSplits(l, ws);
    var i := |s| - |l|;
    var j := i + |Trimmed(s, ws)|;
    assert l[|Trimmed(s, ws)|..] == s[j..];
    assert Trimmed(s, ws) == s[i..j];
  }

  /** Nothing from ws is left at either end. */
  lemma TrimmedEnds(s: string, ws: set<char>)
    ensures var t := Trimmed(s, ws); t != [] ==> t[0] !in ws && t[|t| - 1] !in ws
  {
    var l := StripLeft(s, ws);
    var t := Trimmed(s, ws);
    StripRightSplits(l, ws);
    if t != [] {
      assert t[0] == l[0];
    }
  }

  /** A string made only of whitespace trims to the empty string, and only such a string does. */
  lemma TrimmedEmptyIff(s: string, ws: set<char>)
    ensures Trimmed(s, ws) == [] <==> AllIn(s, ws)
  {
    var l := StripLeft(s, ws);
    StripLeftSplits(s, ws);
    if Trimmed(s, ws) == [] {
      StripRightSplits(l, ws);
      assert AllIn(l, ws) by { assert l[0..] == l; }
      if l != [] {
        assert false;
      }
      assert s[..|s|] == s;
    }
    if AllIn(s, ws) {
      assert s[..|s|] == s;
      StripLeftAt(s, ws, |s|);
    }
  }

  /** Trimming twice is trimming once. */
  lemma TrimmedIdempotent(s: string, ws: set<char>)
    ensures Trimmed(Trimmed(s, ws), ws) == Trimmed(s, ws)
  {
    var t := Trimmed(s, ws);
    TrimmedEnds(s, ws);
    assert StripLeft(t, ws) == t;
    assert StripRight(t, ws) == t;
  }

  /** StripLeft removes exactly the first k characters when they are the leading run of ws. */
  lemma {:induction false} StripLeftAt(s: string, ws: set<char>, k: nat)
    requires k <= |s| && AllIn(s[..k], ws) && (k < |s| ==> s[k] !in ws)
    ensures StripLeft(s, ws) == s[k..]
  {
    if k > 0 {
      assert s[0] == s[..k][0];
      assert s[1..][..k - 1] == s[..k][1..];
      StripLeftAt(s[1..], ws, k - 1);
      assert s[1..][k - 1..] == s[k..];
    }
  }

  /** StripRight keeps exactly the first k characters when the rest is the trailing run of ws. */
  lemma {:induction false} StripRightAt(s: string, ws: set<char>, k: nat)
    requires k <= |s| && AllIn(s[k..], ws) && (k > 0 ==> s[k - 1] !in ws)
    ensures StripRight(s, ws) == s[..k]
  {
    if k < |s| {
      var s' := s[..|s| - 1];
      assert s[|s| - 1] == s[k..][|s| - 1 - k];
      assert s'[k..] == s[k..][..|s| - 1 - k];
      StripRightAt(s', ws, k);
      assert s'[..k] == s[..k];
    } else {
      assert s[..k] == s;
    }
  }

  /** The trimmed string runs from the first to the last character outside ws. */
  lemma TrimmedAt(s: string, ws: set<char>, b: nat, e: nat)
    requires b <= e < |s| && s[b] !in ws && s[e] !in ws
    requires AllIn(s[..b], ws) && AllIn(s[e + 1..], ws)
    ensures Trimmed(s, ws) == s[b..e + 1]
  {
    StripLeftAt(s, ws, b);
    var l := s[b..];
    assert l[e + 1 - b..] == s[e + 1..];
    StripRightAt(l, ws, e + 1 - b);
    assert l[..e + 1 - b] == s[b..e + 1];
  }

  /**
   * `trim`: an empty string is left alone; otherwise the first and last characters
   * outside ws delimit the result, and a string with none becomes empty.
   */
  method Trim(str: string, whitespace: set<char>) returns (res: string)
    ensures res == Trimmed(str, whitespace)
  {
    res := str;
    if str != "" {
      var strBegin := FindFirstNotOf(str, whitespace, 0);
      if strBegin.None? {
        TrimmedEmptyIff(str, whitespace);
        res := "";
      } else {
        var strEnd := FindLastNotOf(str, whitespace, |str|);
        assert strEnd.Some? by { assert str[strBegin.value] !in whitespace; }
        var strRange := strEnd.value - strBegin.value + 1;
        res := str[strBegin.value..strBegin.value + strRange];
        TrimmedAt(str, whitespace, strBegin.value, strEnd.value);
      }
    }
  }

  // ---------------------------------------------------------------------------
  // reduce
  // ---------------------------------------------------------------------------

  /** s with every maximal run of characters from ws replaced by fill. */
  function Collapse(s: string, fill: string, ws: set<char>): string
    decreases |s|
  {
    if s == [] then []
    else if s[0] in ws then fill + Collapse(StripLeft(s, ws), fill, ws)
    else [s[0]] + Collapse(s[1..], fill, ws)
  }

  /** What `reduce` leaves: the trimmed string with its inner whitespace runs collapsed. */
  function Reduced(s: string, fill: string, ws: set<char>): string
  {
    Collapse(Trimmed(s, ws), fill, ws)
  }

  /** A prefix without whitespace passes through unchanged. */
  lemma {:induction false} CollapsePrefix(a: string, b: string, fill: string, ws: set<char>)
    requires forall i :: 0 <= i < |a| ==> a[i] !in ws
    ensures Collapse(a + b, fill, ws) == a + Collapse(b, fill, ws)
  {
    if a != [] {
      assert (a + b)[0] == a[0];
      assert (a + b)[1..] == a[1..] + b;
      CollapsePrefix(a[1..], b, fill, ws);
      assert Collapse(a + b, fill, ws) == [a[0]] + Collapse(a[1..] + b, fill, ws);
      assert [a[0]] + (a[1..] + Collapse(b, fill, ws)) == a + Collapse(b, fill, ws);
    } else {
      assert a + b == b;
    }
  }

  /** A leading whitespace run of length k becomes one fill. */
  lemma CollapseRun(s: string, fill: string, ws: set<char>, k: nat)
    requires 0 < k <= |s| && AllIn(s[..k], ws) && (k < |s| ==> s[k] !in ws)
    ensures Collapse(s, fill, ws) == fill + Collapse(s[k..], fill, ws)
  {
    assert s[0] == s[..k][0];
    StripLeftAt(s, ws, k);
  }

  /** One round of `reduce`: text up to the run, one fill, then the rest after the run. */
  lemma CollapseStep(s: string, pos: nat, b: nat, e: nat, fill: string, ws: set<char>)
    requires pos <= b < e <= |s|
    requires forall k :: pos <= k < b ==> s[k] !in ws
    requires forall k :: b <= k < e ==> s[k] in ws
    requires e < |s| ==> s[e] !in ws
    ensures Collapse(s[pos..], fill, ws) == s[pos..b] + fill + Collapse(s[e..], fill, ws)
  {
    CollapsePrefix(s[pos..b], s[b..], fill, ws);
    assert s[pos..] == s[pos..b] + s[b..];
    assert s[b..][..e - b] == s[b..e];
    CollapseRun(s[b..], fill, ws, e - b);
    assert s[b..][e - b..] == s[e..];
  }

  /** The loop invariant of `reduce` survives replacing the run [b, e) by fill. */
  lemma ReduceRound(t: string, s: string, pos: nat, b: nat, e: nat, fill: string, ws: set<char>)
    requires pos <= b < e <= |s|
    requires forall k :: pos <= k < b ==> s[k] !in ws
    requires forall k :: b <= k < e ==> s[k] in ws
    requires e < |s| ==> s[e] !in ws
    requires Collapse(t, fill, ws) == s[..pos] + Collapse(s[pos..], fill, ws)
    ensures Collapse(t, fill, ws) == (s[..b] + fill) + Collapse(s[e..], fill, ws)
  {
    CollapseStep(s, pos, b, e, fill, ws);
    assert s[..b] == s[..pos] + s[pos..b];
  }

  /** The pieces of s with the slice [b, e) replaced by fill. */
  lemma SpliceParts(s: string, b: nat, e: nat, fill: string)
    requires b <= e <= |s|
    ensures var next := s[..b] + fill + s[e..];
      b + |fill| <= |next| && next[..b + |fill|] == s[..b] + fill && next[b + |fill|..] == s[e..]
  {
  }

  /** Once no whitespace is left after pos, the collapsed text is the current string. */
  lemma ReduceDone(t: string, s: string, pos: nat, fill: string, ws: set<char>)
    requires pos <= |s|
    requires forall k :: pos <= k < |s| ==> s[k] !in ws
    requires Collapse(t, fill, ws) == s[..pos] + Collapse(s[pos..], fill, ws)
    ensures Collapse(t, fill, ws) == s
  {
    CollapsePrefix(s[pos..], [], fill, ws);
    assert s[pos..] + [] == s[pos..];
    assert s[..pos] + s[pos..] == s;
  }

  /**
   * `reduce`: trim, then from left to right replace each whitespace run found by
   * `find_first_of` / `find_first_not_of` with fill and resume after the fill.
   */
  method Reduce(str: string, fill: string, whitespace: set<char>) returns (res: string)
    ensures res == Reduced(str, fill, whitespace)
  {
    res := str;
    if str != "" {
      res := Trim(str, whitespace);
      ghost var t := res;
      var pos: nat := 0;
      var beginSpace := FindFirstOf(res, whitespace, 0);
      while beginSpace.Some?
        invariant pos <= |res|
        invariant beginSpace == FindFirstOf(res, whitespace, pos)
        invariant Collapse(t, fill, whitespace) == res[..pos] + Collapse(res[pos..], fill, whitespace)
        decreases |res| - pos
      {
        var b := beginSpace.value;
        var endSpace := FindFirstNotOf(res, whitespace, b);
        var e := if endSpace.Some? then endSpace.value else |res|;
        var next := res[..b] + fill + res[e..];
        ReduceRound(t, res, pos, b, e, fill, whitespace);
        SpliceParts(res, b, e, fill);
        res := next;
        pos := b + |fill|;
        beginSpace := FindFirstOf(res, whitespace, pos);
      }
      ReduceDone(t, res, pos, fill, whitespace);
    } else {
      assert Trimmed(str, whitespace) == [];
    }
  }

  /** The characters of s outside ws, in order. */
  function NonWhite(s: string, ws: set<char>): string
  {
    if s == [] then [] else (if s[0] in ws then [] else [s[0]]) + NonWhite(s[1..], ws)
  }

  lemma {:induction false} NonWhiteAllIn(s: string, ws: set<char>)
    requires AllIn(s, ws)
    ensures NonWhite(s, ws) == []
  {
    if s != [] {
      NonWhiteAllIn(s[1..], ws);
    }
  }

  lemma {:induction false} NonWhiteConcat(a: string, b: string, ws: set<char>)
    ensures NonWhite(a + b, ws) == NonWhite(a, ws) + NonWhite(b, ws)
  {
    if a != [] {
      assert (a + b)[0] == a[0];
      assert (a + b)[1..] == a[1..] + b;
      NonWhiteConcat(a[1..], b, ws);
    } else {
      assert a + b == b;
    }
  }

  /** When fill is whitespace itself, collapsing keeps every other character, in order. */
  lemma {:induction false} CollapseKeepsText(s: string, fill: string, ws: set<char>)
    requires AllIn(fill, ws)
    ensures NonWhite(Collapse(s, fill, ws), ws) == NonWhite(s, ws)
    decreases |s|
  {
    if s != [] {
      if s[0] in ws {
        var l := StripLeft(s, ws);
        StripLeftSplits(s, ws);
        CollapseKeepsText(l, fill, ws);
        NonWhiteConcat(fill, Collapse(l, fill, ws), ws);
        NonWhiteAllIn(fill, ws);
        assert s == s[..|s| - |l|] + l;
        NonWhiteConcat(s[..|s| - |l|], l, ws);
        NonWhiteAllIn(s[..|s| - |l|], ws);
      } else {
        CollapseKeepsText(s[1..], fill, ws);
        NonWhiteConcat([s[0]], Collapse(s[1..], fill, ws), ws);
        assert NonWhite([s[0]], ws) == [s[0]];
      }
    }
  }

  /** Two whitespace characters never stand side by side in s. */
  predicate NoWhiteRun(s: string, ws: set<char>)
  {
    forall i :: 0 <= i < |s| - 1 ==> !(s[i] in ws && s[i + 1] in ws)
  }

  /** With a one-character fill no two whitespace characters are left side by side. */
  lemma {:induction false} CollapseNoRun(s: string, fill: string, ws: set<char>)
    requires |fill| == 1
    ensures NoWhiteRun(Collapse(s, fill, ws), ws)
    ensures Collapse(s, fill, ws) != [] && Collapse(s, fill, ws)[0] in ws ==> s != [] && s[0] in ws
    decreases |s|
  {
    if s != [] {
      if s[0] in ws {
        var l := StripLeft(s, ws);
        CollapseNoRun(l, fill, ws);
        var c := Collapse(l, fill, ws);
        assert Collapse(s, fill, ws) == fill + c;
        assert forall i :: 1 <= i < |fill + c| ==> (fill + c)[i] == c[i - 1];
      } else {
        CollapseNoRun(s[1..], fill, ws);
        var c := Collapse(s[1..], fill, ws);
        assert forall i :: 1 <= i < |[s[0]] + c| ==> ([s[0]] + c)[i] == c[i - 1];
      }
    }
  }

  /** A string that ends outside ws still does after collapsing. */
  lemma {:induction false} CollapseLast(s: string, fill: string, ws: set<char>)
    requires s != [] && s[|s| - 1] !in ws
    ensures var c := Collapse(s, fill, ws); c != [] && c[|c| - 1] == s[|s| - 1]
    decreases |s|
  {
    if s[0] in ws {
      var l := StripLeft(s, ws);
      StripLeftSplits(s, ws);
      assert s[..|s|] == s;
      assert l != [];
      assert l[|l| - 1] == s[|s| - 1];
      CollapseLast(l, fill, ws);
    } else if |s| > 1 {
      CollapseLast(s[1..], fill, ws);
    }
  }

  /** With a one-character fill the reduced string has no whitespace at either end. */
  lemma ReducedEnds(s: string, fill: string, ws: set<char>)
    requires |fill| == 1
    ensures var r := Reduced(s, fill, ws); r != [] ==> r[0] !in ws && r[|r| - 1] !in ws
  {
    var t := Trimmed(s, ws);
    TrimmedEnds(s, ws);
    CollapseNoRun(t, fill, ws);
    if t != [] {
      CollapseLast(t, fill, ws);
    }
  }

  /** With a one-character fill no two whitespace characters stand side by side after `reduce`. */
  lemma ReducedNoRun(s: string, fill: string, ws: set<char>)
    requires |fill| == 1
    ensures NoWhiteRun(Reduced(s, fill, ws), ws)
  {
    CollapseNoRun(Trimmed(s, ws), fill, ws);
  }

  /** With a whitespace fill, such as the default " ", `reduce` keeps every other character, in order. */
  lemma ReducedKeepsText(s: string, fill: string, ws: set<char>)
    requires AllIn(fill, ws)
    ensures NonWhite(Reduced(s, fill, ws), ws) == NonWhite(s, ws)
  {
    var l := StripLeft(s, ws);
    var t := StripRight(l, ws);
    CollapseKeepsText(t, fill, ws);
    StripLeftSplits(s, ws);
    StripRightSplits(l, ws);
    var i := |s| - |l|;
    assert s == s[..i] + l;
    NonWhiteConcat(s[..i], l, ws);
    NonWhiteAllIn(s[..i], ws);
    assert l == t + l[|t|..];
    NonWhiteConcat(t, l[|t|..], ws);
    NonWhiteAllIn(l[|t|..], ws);
  }

  // ---------------------------------------------------------------------------
  // memrchr
  // ---------------------------------------------------------------------------

  /** The position of the last c among the first n characters of s, `None` when there is none. */
  function LastIndexOf(s: string, c: char, n: nat): (r: Option<nat>)
    requires n <= |s|
    ensures r.Some? ==> r.value < n && s[r.value] == c
    ensures r.Some? ==> forall k :: r.value < k < n ==> s[k] != c
    ensures r.None? ==> forall k :: 0 <= k < n ==> s[k] != c
  {
    if n == 0 then None
    else if s[n - 1] == c then Some(n - 1)
    else LastIndexOf(s, c, n - 1)
  }

  /**
   * `memrchr`: scanning the first n bytes of s backwards, the position of the last
   * one equal to c, or `None` (the null pointer) when there is none.
   */
  method MemRChr(s: seq<char>, c: char, n: nat) returns (r: Option<nat>)
    requires n <= |s|
    ensures r == LastIndexOf(s, c, n)
  {
    r := None;
    if n != 0 {
      var cp: nat := n;
      var left := n;
      while left != 0
        invariant cp == left <= n
        invariant LastIndexOf(s, c, cp) == LastIndexOf(s, c, n)
      {
        cp := cp - 1;
        if s[cp] == c {
          return Some(cp);
        }
        left := left - 1;
      }
    }
  }
}
