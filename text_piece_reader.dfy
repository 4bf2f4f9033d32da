/**
 * The text-piece reader: a window [begin, begin + len) on a block of memory, with
 * a cursor [rest, rest + restLen) over its unread part that `get_first` and
 * `get_last` advance. The memory the pointers point into is `mem`; pointers are
 * offsets into it, and the null pointer is offset 0 of the empty block.
 */
module TextPieces {
  import opened Wrappers
  import StringUtils

  /** The message of the error raised for a delimiter that is not a single character. */
  const DELIMITER_CARDINALITY_ERROR: string := "Unsupported delimiter cardinality"

  /** The message of the error raised by an index outside the text. */
  const INDEX_OUT_OF_TEXT_ERROR: string := "The improper index must be within the text length"

  /** The longest text that `str()` copies out. */
  const MAX_TEXT_PIECE_LENGTH: nat := 1048576
  /** What `str()` gives for a text longer than that. */
  const TEXT_TOO_LARGE_STR: string := "<text-too-large>"
  /** What `str()` gives for an empty text. */
  const TEXT_NOTHING_STR: string := "<NULL>"

  // ---------------------------------------------------------------------------
  // Delimiter runs
  // ---------------------------------------------------------------------------

  /** n copies of d start at j in r. */
  predicate RunAt(r: string, j: nat, d: char, n: nat)
  {
    j + n <= |r| && forall k :: j <= k < j + n ==> r[k] == d
  }

  /** The first start at or after j of a run of n copies of d. */
  function FirstRunFrom(r: string, d: char, n: nat, j: nat): (e: Option<nat>)
    decreases |r| - j
    ensures e.Some? ==> j <= e.value && RunAt(r, e.value, d, n)
  {
    if j + n > |r| then None
    else if RunAt(r, j, d, n) then Some(j)
    else FirstRunFrom(r, d, n, j + 1)
  }

  /** No run starts between j and the one found, and none at all when none is found. */
  lemma {:induction false} FirstRunIsFirst(r: string, d: char, n: nat, j: nat)
    ensures var e := FirstRunFrom(r, d, n, j);
      (e.Some? ==> forall i :: j <= i < e.value ==> !RunAt(r, i, d, n))
      && (e.None? ==> forall i :: j <= i ==> !RunAt(r, i, d, n))
    decreases |r| - j
  {
    if j + n <= |r| && !RunAt(r, j, d, n) {
      FirstRunIsFirst(r, d, n, j + 1);
    }
  }

  /** Positions that do not hold d cannot start a run, so the search may skip to the next d. */
  lemma {:induction false} SkipToDelimiter(r: string, d: char, n: nat, from: nat)
    requires 1 <= n
    ensures var c := StringUtils.FindFirstOf(r, {d}, from);
      FirstRunFrom(r, d, n, from) == if c.Some? then FirstRunFrom(r, d, n, c.value) else None
    decreases |r| - from
  {
    if from < |r| && r[from] != d {
      assert !RunAt(r, from, d, n);
      SkipToDelimiter(r, d, n, from + 1);
    }
  }

  /**
   * The search of `find_first_subseq` for n >= 2 as written: from a candidate d it
   * counts the d among the next n - 1 characters and, when they fall short, resumes
   * at the last of them. Its answer is the position of the run's last character.
   */
  function SubseqAsWritten(r: string, d: char, n: nat, c: Option<nat>): (p: Option<nat>)
    requires 2 <= n
    requires c.Some? ==> c.value < |r| && r[c.value] == d
    decreases if c.Some? then |r| - c.value else 0
    ensures p.Some? ==> n - 1 <= p.value && RunAt(r, p.value - (n - 1), d, n)
  {
    match c
    case None => None
    case Some(first) =>
      var last := first + (n - 1);
      if last <= |r| - 1 then
        if 1 + StringUtils.Count(r[first + 1..last + 1], d) == n then
          RunFromCount(r, first, d, n);
          Some(last)
        else
          SubseqAsWritten(r, d, n, StringUtils.FindFirstOf(r, {d}, last))
      else None
  }

  /** A d followed by n - 1 more d is a run of n. */
  lemma RunFromCount(r: string, first: nat, d: char, n: nat)
    requires 1 <= n && first + n <= |r| && r[first] == d
    ensures StringUtils.Count(r[first + 1..first + n], d) == n - 1 <==> RunAt(r, first, d, n)
  {
    var t := r[first + 1..first + n];
    StringUtils.CountAll(t, d);
    if StringUtils.Count(t, d) == n - 1 {
      forall k | first <= k < first + n
        ensures r[k] == d
      {
        if k > first {
          assert r[k] == t[k - first - 1];
        }
      }
    }
    if RunAt(r, first, d, n) {
      forall k | 0 <= k < |t|
        ensures t[k] == d
      {
        assert t[k] == r[first + 1 + k];
      }
    }
  }

  /**
   * With four newlines wanted, the search as written misses the run at 2 in
   * "\nx\n\n\n\n": it resumes at 3, where too few characters are left.
   */
  lemma SubseqAsWrittenMissesRun()
    ensures var r := "\nx\n\n\n\n";
      RunAt(r, 2, '\n', 4) && SubseqAsWritten(r, '\n', 4, StringUtils.FindFirstOf(r, {'\n'}, 0)) == None
  {
    var r := "\nx\n\n\n\n";
    assert StringUtils.FindFirstOf(r, {'\n'}, 0) == Some(0);
    var t := r[1..4];
    assert t == "x\n\n" && t[1..] == "\n\n" && t[1..][1..] == "\n" && t[1..][1..][1..] == [];
    assert StringUtils.Count(t[1..][1..], '\n') == 1;
    assert StringUtils.Count(t[1..], '\n') == 2;
    assert StringUtils.Count(t, '\n') == 2;
    assert StringUtils.FindFirstOf(r, {'\n'}, 3) == Some(3);
  }

  /** The first run in that example starts at 2. */
  lemma FirstRunOfExample()
    ensures FirstRunFrom("\nx\n\n\n\n", '\n', 4, 0) == Some(2)
  {
    var r := "\nx\n\n\n\n";
    assert r[1] != '\n' && !RunAt(r, 0, '\n', 4) && !RunAt(r, 1, '\n', 4);
    assert RunAt(r, 2, '\n', 4);
  }

  // ---------------------------------------------------------------------------
  // What get_first and get_last hand out
  // ---------------------------------------------------------------------------

  /**
   * Where `get_first` cuts the unread text r: the piece handed out is r[..pieceEnd],
   * the delimiter consumed r[pieceEnd..restStart], and r[restStart..] stays unread.
   */
  datatype Cut = Cut(pieceEnd: nat, restStart: nat)

  /**
   * The cut `get_first` makes in the unread text r: up to the first run of n copies
   * of d, a '\r' just before a newline run left out of the piece; the whole text
   * when there is no run; nothing when r is empty.
   */
  function NextCut(r: string, d: char, n: nat): (c: Option<Cut>)
    requires 1 <= n
    ensures c.None? <==> r == []
    ensures c.Some? ==> c.value.pieceEnd <= c.value.restStart <= |r| && 0 < c.value.restStart
  {
    match FirstRunFrom(r, d, n, 0)
    case Some(j) =>
      var e := j + n - 1;
      if d == '\n' && e > 0 && r[e - 1] == '\r' then Some(Cut(j - 1, e + 1))
      else Some(Cut(j, e + 1))
    case None =>
      if r == [] then None else Some(Cut(|r|, |r|))
  }

  /**
   * The delimiter consumed by `get_first` is the first run of n copies of d,
   * preceded by the '\r' of a Windows line end, and the piece holds no such run;
   * without a run the whole text is handed out and nothing is left unread.
   */
  lemma NextCutSeparator(r: string, d: char, n: nat)
    requires 1 <= n && r != []
    ensures var c := NextCut(r, d, n).value;
      var sep := r[c.pieceEnd..c.restStart];
      (forall i :: 0 <= i < c.pieceEnd ==> !RunAt(r, i, d, n))
      && match FirstRunFrom(r, d, n, 0)
        case None => c.pieceEnd == c.restStart == |r|
        case Some(j) =>
          c.restStart == j + n && RunAt(sep, |sep| - n, d, n)
          && (|sep| == n || (|sep| == n + 1 && n == 1 && d == '\n' && sep[0] == '\r'))
  {
    FirstRunIsFirst(r, d, n, 0);
    var c := NextCut(r, d, n).value;
    var sep := r[c.pieceEnd..c.restStart];
    match FirstRunFrom(r, d, n, 0)
    case None =>
    case Some(j) =>
      forall k | |sep| - n <= k < |sep|
        ensures sep[k] == d
      {
        assert sep[k] == r[c.pieceEnd + k];
      }
  }

  /** A line ending in "\r\n" is handed out without the '\r'. */
  lemma CarriageReturnDropped(r: string, k: nat)
    requires 0 < k < |r| && r[k] == '\n' && r[k - 1] == '\r'
    requires forall i :: 0 <= i < k ==> r[i] != '\n'
    ensures NextCut(r, '\n', 1) == Some(Cut(k - 1, k + 1))
  {
    SkipToDelimiter(r, '\n', 1, 0);
    assert StringUtils.FindFirstOf(r, {'\n'}, 0) == Some(k);
    assert RunAt(r, k, '\n', 1);
  }

  /** The pieces `get_first` hands out one after the other, each with the delimiter it consumed. */
  function Cuts(r: string, d: char, n: nat): seq<(string, string)>
    requires 1 <= n
    decreases |r|
  {
    match NextCut(r, d, n)
    case None => []
    case Some(c) => [(r[..c.pieceEnd], r[c.pieceEnd..c.restStart])] + Cuts(r[c.restStart..], d, n)
  }

  /** The pieces and delimiters of a list of cuts, in order. */
  function Consumed(cs: seq<(string, string)>): string
  {
    if cs == [] then [] else cs[0].0 + cs[0].1 + Consumed(cs[1..])
  }

  /** Repeated `get_first` calls partition the text: pieces and delimiters rebuild it. */
  lemma {:induction false} CutsPartition(r: string, d: char, n: nat)
    requires 1 <= n
    ensures Consumed(Cuts(r, d, n)) == r
    decreases |r|
  {
    match NextCut(r, d, n)
    case None =>
    case Some(c) =>
      CutsPartition(r[c.restStart..], d, n);
      var cs := Cuts(r, d, n);
      assert cs[1..] == Cuts(r[c.restStart..], d, n);
      assert r[..c.pieceEnd] + r[c.pieceEnd..c.restStart] + r[c.restStart..] == r;
  }

  /**
   * Where `get_last` cuts the unread text r: r[..restEnd] stays unread, the
   * delimiter r[restEnd..pieceStart] is consumed and r[pieceStart..] is handed out.
   */
  datatype BackCut = BackCut(restEnd: nat, pieceStart: nat)

  /**
   * The cut `get_last` makes in the unread text r: after the last d, a '\r' just
   * before a newline consumed with it; the whole text when there is no d; nothing
   * when r is empty.
   */
  function LastCut(r: string, d: char): (c: Option<BackCut>)
    ensures c.None? <==> r == []
    ensures c.Some? ==> c.value.restEnd <= c.value.pieceStart <= |r|
    ensures c.Some? ==> forall k :: c.value.pieceStart <= k < |r| ==> r[k] != d
    ensures c.Some? && c.value.restEnd == c.value.pieceStart ==> c.value.restEnd == 0 && forall k :: 0 <= k < |r| ==> r[k] != d
    ensures c.Some? && c.value.restEnd < c.value.pieceStart ==> r[c.value.pieceStart - 1] == d
  {
    match StringUtils.LastIndexOf(r, d, |r|)
    case Some(p) =>
      if d == '\n' && p > 0 && r[p - 1] == '\r' then Some(BackCut(p - 1, p + 1)) else Some(BackCut(p, p + 1))
    case None =>
      if r == [] then None else Some(BackCut(0, 0))
  }

  // ---------------------------------------------------------------------------
  // Comparison and rendering
  // ---------------------------------------------------------------------------

  /** `strncmp(a, b, n) == 0`: the first n characters agree, or agree up to a NUL in both. */
  function StrNEq(a: string, b: string, n: nat): bool
    requires n <= |a| && n <= |b|
  {
    n == 0 || (a[0] == b[0] && (a[0] == 0 as char || StrNEq(a[1..], b[1..], n - 1)))
  }

  /** Equal prefixes compare equal; without a NUL, comparing equal means equal prefixes. */
  lemma {:induction false} StrNEqMeansEqual(a: string, b: string, n: nat)
    requires n <= |a| && n <= |b|
    ensures a[..n] == b[..n] ==> StrNEq(a, b, n)
    ensures (forall k :: 0 <= k < n ==> a[k] != 0 as char) ==> (StrNEq(a, b, n) <==> a[..n] == b[..n])
    ensures (forall k :: 0 <= k < n ==> b[k] != 0 as char) ==> (StrNEq(a, b, n) <==> a[..n] == b[..n])
  {
    if n > 0 {
      StrNEqMeansEqual(a[1..], b[1..], n - 1);
      assert a[..n] == [a[0]] + a[1..][..n - 1];
      assert b[..n] == [b[0]] + b[1..][..n - 1];
      if forall k :: 0 <= k < n ==> a[k] != 0 as char {
        forall k | 0 <= k < n - 1
          ensures a[1..][k] != 0 as char
        {
          assert a[1..][k] == a[k + 1];
        }
      }
      if forall k :: 0 <= k < n ==> b[k] != 0 as char {
        forall k | 0 <= k < n - 1
          ensures b[1..][k] != 0 as char
        {
          assert b[1..][k] == b[k + 1];
        }
      }
    }
  }

  /** The length `strlen` sees: up to the first NUL. */
  function CLength(s: string): (l: nat)
    ensures l <= |s|
    ensures forall k :: 0 <= k < l ==> s[k] != 0 as char
    ensures l < |s| ==> s[l] == 0 as char
  {
    if s == [] || s[0] == 0 as char then 0 else 1 + CLength(s[1..])
  }

  /** What `str()` renders for the text t. */
  function Rendered(t: string): string
  {
    if |t| > 0 then (if |t| <= MAX_TEXT_PIECE_LENGTH then t else TEXT_TOO_LARGE_STR)
    else TEXT_NOTHING_STR
  }

  /** The do-while of `find_first_subseq`: one for the d at first, plus the d among the next characters up to last. */
  method CountRun(r: string, first: nat, last: nat, d: char) returns (found: nat)
    requires first <= last < |r|
    ensures found == 1 + StringUtils.Count(r[first + 1..last + 1], d)
  {
    found := 1;
    var k := first;
    while k < last
      invariant first <= k <= last
      invariant found == 1 + StringUtils.Count(r[first + 1..k + 1], d)
    {
      k := k + 1;
      StringUtils.CountAppend(r[first + 1..k], r[k], d);
      assert r[first + 1..k + 1] == r[first + 1..k] + [r[k]];
      if r[k] == d {
        found := found + 1;
      }
    }
  }

  /**
   * `find_first_subseq` on the unread text r, with the search resuming one past a
   * failed candidate: the position of the last character of the first run of n
   * copies of d.
   */
  method FindFirstSubseq(r: string, d: char, n: nat) returns (p: Option<nat>)
    requires 1 <= n
    ensures p == match FirstRunFrom(r, d, n, 0)
      case Some(j) => Some(j + n - 1)
      case None => None
  {
    var c := StringUtils.FindFirstOf(r, {d}, 0);
    SkipToDelimiter(r, d, n, 0);
    if n > 1 {
      while c.Some?
        invariant c.Some? ==> c.value < |r| && r[c.value] == d
        invariant FirstRunFrom(r, d, n, 0) == if c.Some? then FirstRunFrom(r, d, n, c.value) else None
        decreases if c.Some? then |r| - c.value else 0
      {
        var first := c.value;
        var last := first + (n - 1);
        if last <= |r| - 1 {
          var found := CountRun(r, first, last, d);
          RunFromCount(r, first, d, n);
          if found == n {
            break;
          }
          SkipToDelimiter(r, d, n, first + 1);
          c := StringUtils.FindFirstOf(r, {d}, first + 1);
        } else {
          c := None;
        }
      }
    } else if c.Some? {
      assert RunAt(r, c.value, d, n);
    }
    p := if c.Some? then Some(c.value + n - 1) else None;
  }

  /**
   * The lengths `get_first` computes from what `find_first_subseq` found: the piece
   * ends n - 1 before the run's last character, one earlier after a '\r' before a
   * newline, and the unread text resumes past the run.
   */
  method FirstCutOffsets(r: string, d: char, n: nat) returns (c: Option<Cut>)
    requires 1 <= n
    ensures c == NextCut(r, d, n)
  {
    var p := FindFirstSubseq(r, d, n);
    if p.Some? {
      var found := p.value;
      var outLen: nat := found - (n - 1);
      if d == '\n' && found > 0 && r[found - 1] == '\r' {
        outLen := outLen - 1;
      }
      c := Some(Cut(outLen, found + 1));
    } else if |r| == 0 {
      c := None;
    } else {
      c := Some(Cut(|r|, |r|));
    }
  }

  /**
   * The lengths `get_last` computes from what `memrchr` found: the piece starts past
   * the last d, and the unread text ends before it, one earlier after a '\r'
   * before a newline.
   */
  method LastCutOffsets(r: string, d: char) returns (c: Option<BackCut>)
    ensures c == LastCut(r, d)
  {
    var q := StringUtils.MemRChr(r, d, |r|);
    if q.Some? {
      var restLen := q.value;
      if d == '\n' && restLen > 0 && r[restLen - 1] == '\r' {
        restLen := restLen - 1;
      }
      c := Some(BackCut(restLen, q.value + 1));
    } else if |r| == 0 {
      c := None;
    } else {
      c := Some(BackCut(0, 0));
    }
  }

  // ---------------------------------------------------------------------------
  // The reader
  // ---------------------------------------------------------------------------

  class TextPieceReader {
    /** The memory the pointers point into. */
    var mem: seq<char>
    /** The text: offset and length. */
    var begin: nat
    var len: nat
    /** Whether the string rendering is to be regenerated, and the cached rendering. */
    var isGenStr: bool
    var cachedStr: string
    /** The unread remainder: offset and length. */
    var rest: nat
    var restLen: nat

    /** The cursor stays inside the text, the text inside the memory, and a kept rendering is current. */
    ghost predicate Valid()
      reads this
    {
      begin <= rest && rest + restLen <= begin + len <= |mem|
      && (!isGenStr ==> cachedStr == Rendered(mem[begin..begin + len]))
    }

    /** The text this reader stands for. */
    function Text(): string
      reads this
      requires begin + len <= |mem|
    {
      mem[begin..begin + len]
    }

    /** The text not read yet. */
    function Rest(): string
      reads this
      requires rest + restLen <= |mem|
    {
      mem[rest..rest + restLen]
    }

    /** The default constructor: an empty text over no memory. */
    constructor ()
      ensures Valid() && Text() == [] && Rest() == [] && isGenStr && cachedStr == ""
    {
      mem := [];
      begin, len := 0, 0;
      isGenStr := true;
      cachedStr := "";
      rest, restLen := 0, 0;
    }

    /** `set`: the reader now stands for l characters of m from b, all of them unread. */
    method Set(m: seq<char>, b: nat, l: nat)
      requires b + l <= |m|
      modifies this
      ensures Valid() && mem == m && begin == b && len == l && isGenStr && cachedStr == ""
      ensures rest == begin && restLen == len && Rest() == Text()
    {
      mem := m;
      begin := b;
      len := l;
      isGenStr := true;
      cachedStr := "";
      rest := b;
      restLen := l;
    }

    /** `has_more`: something is left to read. */
    function HasMore(): (more: bool)
      reads this
      requires Valid()
      ensures more <==> Rest() != []
    {
      restLen > 0
    }

    /** `operator[]`: the character at idx, an error outside the text. */
    function At(idx: nat): (r: Result<char>)
      reads this
      requires Valid()
      ensures r.Ok? <==> idx < |Text()|
      ensures r.Ok? ==> r.value == Text()[idx]
    {
      if idx >= len then Err(INDEX_OUT_OF_TEXT_ERROR)
      else Ok(mem[begin + idx])
    }

    /**
     * `operator==` on two readers: equal lengths and `strncmp` finds no difference.
     * Equal texts compare equal, and for texts without a NUL that is the only way.
     */
    function Equals(other: TextPieceReader): (eq: bool)
      reads this, other
      requires Valid() && other.Valid()
      ensures Text() == other.Text() ==> eq
      ensures (forall k :: 0 <= k < |Text()| ==> Text()[k] != 0 as char) ==> (eq <==> Text() == other.Text())
    {
      if other.len == len then
        StrNEqMeansEqual(Text(), other.Text(), len);
        assert Text()[..len] == Text() && other.Text()[..len] == other.Text();
        StrNEq(Text(), other.Text(), len)
      else false
    }

    /**
     * `operator==` on a C string or `std::string`: the text agrees with s up to its
     * first NUL. A string without a NUL compares equal exactly when it is the text.
     */
    function EqualsCString(s: string): (eq: bool)
      reads this
      requires Valid()
      ensures (forall k :: 0 <= k < |s| ==> s[k] != 0 as char) ==> (eq <==> Text() == s)
    {
      var l := CLength(s);
      assert (forall k :: 0 <= k < |s| ==> s[k] != 0 as char) ==> l == |s|;
      if l == len then
        StrNEqMeansEqual(Text(), s, len);
        assert Text()[..len] == Text();
        assert l == |s| ==> s[..len] == s;
        StrNEq(Text(), s, len)
      else false
    }

    /**
     * `str()`: the text as a string, `"<NULL>"` when empty and `"<text-too-large>"`
     * beyond the limit; the rendering is cached until the next `set`.
     */
    method Str() returns (s: string)
      requires Valid()
      modifies this
      ensures Valid() && !isGenStr && cachedStr == s
      ensures mem == old(mem) && begin == old(begin) && len == old(len)
      ensures rest == old(rest) && restLen == old(restLen)
      ensures len == 0 ==> s == TEXT_NOTHING_STR
      ensures 0 < len <= MAX_TEXT_PIECE_LENGTH ==> s == Text()
      ensures len > MAX_TEXT_PIECE_LENGTH ==> s == TEXT_TOO_LARGE_STR
    {
      if isGenStr {
        if len > 0 {
          if len <= MAX_TEXT_PIECE_LENGTH {
            cachedStr := mem[begin..begin + len];
          } else {
            cachedStr := TEXT_TOO_LARGE_STR;
          }
        } else {
          cachedStr := TEXT_NOTHING_STR;
        }
        isGenStr := false;
      }
      s := cachedStr;
    }

    /**
     * `get_first`: hands out the unread text up to the first run of n copies of d
     * (less a '\r' before a newline) and moves the cursor past the run; without a
     * run it hands out all that is left; with nothing left it answers false.
     */
    method GetFirst(out: TextPieceReader, d: char, n: nat) returns (ok: bool)
      requires Valid() && out != this && 1 <= n
      modifies this, out
      ensures Valid() && mem == old(mem) && begin == old(begin) && len == old(len)
      ensures isGenStr == old(isGenStr) && cachedStr == old(cachedStr)
      ensures var c := NextCut(old(Rest()), d, n);
        ok == c.Some?
        && (ok ==>
              out.Valid() && out.mem == mem && out.Rest() == out.Text()
              && out.begin == old(rest) && out.len == c.value.pieceEnd
              && restLen == old(restLen) - c.value.restStart
              && rest == old(rest) + (if c.value.pieceEnd < c.value.restStart then c.value.restStart else 0))
      ensures !ok ==> unchanged(out) && rest == old(rest) && restLen == old(restLen)
    {
      var start := rest;
      var c := FirstCutOffsets(mem[rest..rest + restLen], d, n);
      if c.None? {
        return false;
      }
      if c.value.pieceEnd < c.value.restStart {
        rest := rest + c.value.restStart;
        restLen := restLen - c.value.restStart;
      } else {
        restLen := 0;
      }
      out.Set(mem, start, c.value.pieceEnd);
      ok := true;
    }

    /**
     * `get_last`: only a single delimiter is supported; hands out the unread text
     * after the last d and keeps the text before it (less a '\r' before a newline)
     * unread; without a d it hands out all that is left; with nothing left it
     * answers false.
     */
    method GetLast(out: TextPieceReader, d: char, card: nat) returns (res: Result<bool>)
      requires Valid() && out != this
      modifies this, out
      ensures Valid() && mem == old(mem) && begin == old(begin) && len == old(len)
      ensures isGenStr == old(isGenStr) && cachedStr == old(cachedStr)
      ensures card != 1 ==> res.Err? && rest == old(rest) && restLen == old(restLen) && unchanged(out)
      ensures card == 1 ==>
        var c := LastCut(old(Rest()), d);
        res == Ok(c.Some?)
        && (c.Some? ==>
              out.Valid() && out.mem == mem && out.Rest() == out.Text()
              && out.begin == old(rest) + c.value.pieceStart && out.len == old(restLen) - c.value.pieceStart
              && rest == old(rest) && restLen == c.value.restEnd)
      ensures res == Ok(false) ==> unchanged(out) && rest == old(rest) && restLen == old(restLen)
    {
      if card != 1 {
        return Err(DELIMITER_CARDINALITY_ERROR);
      }
      var c := LastCutOffsets(mem[rest..rest + restLen], d);
      if c.None? {
        return Ok(false);
      }
      out.Set(mem, rest + c.value.pieceStart, restLen - c.value.pieceStart);
      restLen := c.value.restEnd;
      res := Ok(true);
    }
  }
}
