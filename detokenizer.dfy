/**
 * The NLTK-based detokenizer (`PostProcessor.post_process`) of the translation
 * scripts. A sentence is stripped, split on single spaces into tokens, and pasted
 * back in one left-to-right pass whose state is the text so far, the pending
 * separator (`pre_spc`) and one counter per quote class. Moses escapes are then
 * undone in a fixed order and the result stripped again.
 *
 * The regular expressions of the source are modelled as character-class
 * predicates; `$` also matches just before a final newline, as in Python.
 * The `in` tests on tokens are Python substring tests, so an empty token counts
 * as a quote token and as a contraction mark.
 */
module Detokenizer {
  import opened Wrappers
  import StringUtils

  // ---------------------------------------------------------------------------
  // Configuration and pass state
  // ---------------------------------------------------------------------------

  /**
   * The languages the pass tells apart: those with a contraction pattern, German
   * (for its quotes) and every other language name.
   */
  datatype Language = English | French | Spanish | Italian | Czech | German | Other

  /** The language a name selects. */
  function LanguageOf(name: string): (l: Language)
    ensures l == English <==> name == "english"
    ensures l == French <==> name == "french"
    ensures l == Spanish <==> name == "spanish"
    ensures l == Italian <==> name == "italian"
    ensures l == Czech <==> name == "czech"
    ensures l == German <==> name == "german"
    ensures l == Other <==> name !in {"english", "french", "spanish", "italian", "czech", "german"}
  {
    match name
    case "english" => English
    case "french" => French
    case "spanish" => Spanish
    case "italian" => Italian
    case "czech" => Czech
    case "german" => German
    case _ => Other
  }

  /** The language of the `language` option, which is "english" when absent. */
  function LanguageOption(opt: Option<string>): (l: Language)
    ensures opt.None? ==> l == English
    ensures opt.Some? ==> l == LanguageOf(opt.value)
    ensures l == English <==> opt.None? || opt.value == "english"
  {
    LanguageOf(if opt.Some? then opt.value else "english")
  }

  /** The options the pass reads: the language and `moses_deescape`. */
  datatype Config = Config(language: Language, mosesDeescape: bool)

  /** The loop variables: `sentence`, `pre_spc` and the `quote_count` dictionary. */
  datatype PassState = PassState(text: string, preSpc: string, quotes: map<string, nat>)

  const SINGLE_QUOTE: string := "'"
  const DOUBLE_QUOTE: string := "\""
  const BACKTICK: string := "`"

  /** The state before the first token: nothing written, one space pending, all counters 0. */
  const INITIAL: PassState := PassState("", " ", map[SINGLE_QUOTE := 0, DOUBLE_QUOTE := 0, BACKTICK := 0])

  /** The quote characters: ' " „ “ ” ‚ ‘ ’ ` */
  const QUOTES: string := "'\"\U{201E}\U{201C}\U{201D}\U{201A}\U{2018}\U{2019}`"
  /** The typographic double quotes „ “ ”, counted as `"`. */
  const DOUBLE_QUOTES: string := "\U{201E}\U{201C}\U{201D}"
  /** The typographic single quotes ‚ ‘ ’, counted as `'`. */
  const SINGLE_QUOTES: string := "\U{201A}\U{2018}\U{2019}"
  /** The low opening quotes „ ‚ of Czech and German. */
  const LOW_QUOTES: string := "\U{201E}\U{201A}"
  /** The high quotes “ ‘ that close a quotation in Czech and German. */
  const HIGH_QUOTES: string := "\U{201C}\U{2018}"
  /** The marks that join contractions: apostrophe, hyphen, en dash. */
  const CONTRACTION_MARKS: string := "'-\U{2013}"
  /** The tokens `t` with `t in CONTRACTION_MARKS`: the pieces of that string, the empty one included. */
  const CONTRACTION_MARK_TOKENS: set<string> := {"", "'", "-", "\U{2013}", "'-", "-\U{2013}", "'-\U{2013}"}

  /** Python's `w in s` on strings: w occurs in s as a contiguous piece. */
  predicate IsSubstring(w: string, s: string)
  {
    exists i :: 0 <= i <= |s| && w <= s[i..]
  }

  /** `s.endswith('s')`. */
  predicate EndsWithS(s: string)
  {
    s != [] && s[|s| - 1] == 's'
  }

  // ---------------------------------------------------------------------------
  // Character classes of the regular expressions
  // ---------------------------------------------------------------------------

  /** The CJK ranges of `__cjk_chars`. */
  predicate IsCjk(c: char)
  {
    var n := c as int;
    (0x1100 <= n <= 0x11FF) || (0x2E80 <= n <= 0xA4CF) || (0xA840 <= n <= 0xA87F)
    || (0xAC00 <= n <= 0xD7AF) || (0xF900 <= n <= 0xFAFF) || (0xFE30 <= n <= 0xFE4F)
    || (0xFF65 <= n <= 0xFFDC)
  }

  /** The Unicode currency symbols (`\p{Sc}`). */
  predicate IsCurrencySymbol(c: char)
  {
    var n := c as int;
    n == 0x24 || (0xA2 <= n <= 0xA5) || n == 0x58F || n == 0x60B || (0x7FE <= n <= 0x7FF)
    || (0x9F2 <= n <= 0x9F3) || n == 0x9FB || n == 0xAF1 || n == 0xBF9 || n == 0xE3F
    || n == 0x17DB || (0x20A0 <= n <= 0x20C0) || n == 0xA838 || n == 0xFDFC || n == 0xFE69
    || n == 0xFF04 || (0xFFE0 <= n <= 0xFFE1) || (0xFFE5 <= n <= 0xFFE6)
  }

  /** The class of `__currency_or_init_punct`: currency symbols and ( [ { ¿ ¡. */
  predicate IsCurrencyOrInitPunct(c: char)
  {
    IsCurrencySymbol(c) || c in {'(', '[', '{', '\U{00BF}', '\U{00A1}'}
  }

  /** The class of `__noprespace_punct`: , . ? ! : ; \ % } ] ). */
  predicate IsNoPrespacePunct(c: char)
  {
    c in {',', '.', '?', '!', ':', ';', '\\', '%', '}', ']', ')'}
  }

  /** The class of `__fr_prespace_punct`: ? ! : ; \ %. */
  predicate IsFrPrespacePunct(c: char)
  {
    c in {'?', '!', ':', ';', '\\', '%'}
  }

  /**
   * Letters (`\p{Alpha}`): ASCII and Latin-1 letters, Latin Extended, Greek, Cyrillic,
   * kana, CJK ideographs and Hangul syllables.
   */
  predicate IsAlpha(c: char)
  {
    var n := c as int;
    (0x41 <= n <= 0x5A) || (0x61 <= n <= 0x7A) || n == 0xAA || n == 0xB5 || n == 0xBA
    || (0xC0 <= n <= 0x24F && n != 0xD7 && n != 0xF7)
    || (0x386 <= n <= 0x3FF && n != 0x387) || (0x400 <= n <= 0x481) || (0x48A <= n <= 0x52F)
    || (0x3041 <= n <= 0x30FF) || (0x4E00 <= n <= 0x9FFF) || (0xAC00 <= n <= 0xD7A3)
  }

  /** Lower-casing for `IGNORECASE`: ASCII and Latin-1 capitals. */
  function Lower(c: char): (l: char)
    ensures IsAlpha(c) <==> IsAlpha(l)
  {
    var n := c as int;
    if (0x41 <= n <= 0x5A) || (0xC0 <= n <= 0xDE && n != 0xD7) then (n + 32) as char else c
  }

  /** Case-insensitive equality with a lower-case pattern character. */
  predicate CiEq(c: char, p: char)
  {
    Lower(c) == p
  }

  /** Case-insensitive equality of s with a lower-case literal. */
  predicate CiEqStr(s: string, p: string)
  {
    |s| == |p| && forall i :: 0 <= i < |s| ==> CiEq(s[i], p[i])
  }

  /** Every character is a letter (`\p{Alpha}*`). */
  predicate AllAlpha(s: string)
  {
    forall i :: 0 <= i < |s| ==> IsAlpha(s[i])
  }

  /** The character classes of the punctuation patterns. */
  datatype CharClass = CurrencyOrInitPunct | NoPrespacePunct | FrPrespacePunct

  predicate InClass(cls: CharClass, c: char)
  {
    match cls
    case CurrencyOrInitPunct => IsCurrencyOrInitPunct(c)
    case NoPrespacePunct => IsNoPrespacePunct(c)
    case FrPrespacePunct => IsFrPrespacePunct(c)
  }

  /** `^[cls]+` up to the end: a non-empty run of class members. */
  predicate RunOf(w: string, cls: CharClass)
  {
    w != [] && forall i :: 0 <= i < |w| ==> InClass(cls, w[i])
  }

  /** Python's `$`: the end of the string, or just before a newline that ends it. */
  function BeforeFinalNewline(w: string): (r: Option<string>)
    ensures r.Some? <==> (w != [] && w[|w| - 1] == '\n')
    ensures r.Some? ==> w == r.value + "\n"
  {
    if w != [] && w[|w| - 1] == '\n' then Some(w[..|w| - 1]) else None
  }

  /** `^[cls]+$` matches w. */
  predicate MatchesRun(w: string, cls: CharClass)
  {
    RunOf(w, cls) || (BeforeFinalNewline(w).Some? && RunOf(BeforeFinalNewline(w).value, cls))
  }

  /** `^[cls]$` matches w. */
  predicate MatchesOne(w: string, cls: CharClass)
  {
    (|w| == 1 && InClass(cls, w[0])) || (|w| == 2 && w[1] == '\n' && InClass(cls, w[0]))
  }

  // ---------------------------------------------------------------------------
  // Contraction patterns
  // ---------------------------------------------------------------------------

  /** `\p{Alpha}+` followed by the literal suffix (case-insensitive). */
  predicate AlphaThen(s: string, suffix: string)
  {
    |s| > |suffix| && AllAlpha(s[..|s| - |suffix|]) && CiEqStr(s[|s| - |suffix|..], suffix)
  }

  /** English: `\p{Alpha}+('(ll|ve|re|[dsm])|n't)`. */
  predicate EnglishContraction(s: string)
  {
    AlphaThen(s, "'ll") || AlphaThen(s, "'ve") || AlphaThen(s, "'re") || AlphaThen(s, "'d")
    || AlphaThen(s, "'s") || AlphaThen(s, "'m") || AlphaThen(s, "n't")
  }

  /** French: `([cjtmnsdl]|qu)'\p{Alpha}+`. */
  predicate FrenchContraction(s: string)
  {
    (|s| >= 3 && Lower(s[0]) in {'c', 'j', 't', 'm', 'n', 's', 'd', 'l'} && s[1] == '\'' && AllAlpha(s[2..]))
    || (|s| >= 4 && CiEqStr(s[..2], "qu") && s[2] == '\'' && AllAlpha(s[3..]))
  }

  /** Spanish: `[dl]'\p{Alpha}+`. */
  predicate SpanishContraction(s: string)
  {
    |s| >= 3 && Lower(s[0]) in {'d', 'l'} && s[1] == '\'' && AllAlpha(s[2..])
  }

  /** Italian, first alternative: `\p{Alpha}*l'\p{Alpha}+`. */
  predicate ItalianElision(s: string)
  {
    |s| >= 3
    && ((CiEq(s[0], 'l') && s[1] == '\'' && AllAlpha(s[2..])) || (IsAlpha(s[0]) && ItalianElision(s[1..])))
  }

  /** Italian: `\p{Alpha}*(l'\p{Alpha}+|[cv]'è)`. */
  predicate ItalianContraction(s: string)
  {
    ItalianElision(s)
    || (|s| >= 3 && AllAlpha(s[..|s| - 3]) && Lower(s[|s| - 3]) in {'c', 'v'} && s[|s| - 2] == '\''
        && CiEq(s[|s| - 1], '\U{00E8}'))
  }

  /** Czech: `\p{Alpha}+[-–](mail|li)`. */
  predicate CzechContraction(s: string)
  {
    (|s| >= 6 && AllAlpha(s[..|s| - 5]) && s[|s| - 5] in {'-', '\U{2013}'} && CiEqStr(s[|s| - 4..], "mail"))
    || (|s| >= 4 && AllAlpha(s[..|s| - 3]) && s[|s| - 3] in {'-', '\U{2013}'} && CiEqStr(s[|s| - 2..], "li"))
  }

  /** The languages of `CONTRACTIONS`; any other language has no contraction pattern. */
  predicate HasContractions(language: Language)
  {
    language != German && language != Other
  }

  /** The language's pattern, anchored at both ends, matches s. */
  predicate FullContraction(language: Language, s: string)
  {
    match language
    case English => EnglishContraction(s)
    case French => FrenchContraction(s)
    case Spanish => SpanishContraction(s)
    case Italian => ItalianContraction(s)
    case Czech => CzechContraction(s)
    case _ => false
  }

  /** `__contract.match(s)` for a language that has a pattern. */
  predicate MatchesContraction(language: Language, s: string)
  {
    FullContraction(language, s)
    || (BeforeFinalNewline(s).Some? && FullContraction(language, BeforeFinalNewline(s).value))
  }

  // ---------------------------------------------------------------------------
  // The rules of the pass
  // ---------------------------------------------------------------------------

  /** The last written character and the first of the token are both CJK. */
  predicate CjkJoin(text: string, word: string)
  {
    text != [] && IsCjk(text[|text| - 1]) && word != [] && IsCjk(word[0])
  }

  predicate IsOpeningToken(word: string)
  {
    MatchesRun(word, CurrencyOrInitPunct)
  }

  /** A no-prespace token, unless the language is French and the token is one of ? ! : ; \ %. */
  predicate IsGluedPunct(cfg: Config, word: string)
  {
    MatchesRun(word, NoPrespacePunct) && (cfg.language != French || !MatchesOne(word, FrPrespacePunct))
  }

  /** A contraction mark between two tokens whose concatenation matches the language pattern. */
  predicate IsContraction(cfg: Config, words: seq<string>, pos: nat)
    requires pos < |words|
  {
    words[pos] in CONTRACTION_MARK_TOKENS && 0 < pos < |words| - 1 && HasContractions(cfg.language)
    && MatchesContraction(cfg.language, words[pos - 1] + words[pos] + words[pos + 1])
  }

  predicate IsQuoteToken(word: string)
  {
    IsSubstring(word, QUOTES)
  }

  /** The counter a quote token uses: typographic quotes are counted with their ASCII class. */
  function QuoteType(word: string): string
  {
    if IsSubstring(word, DOUBLE_QUOTES) then DOUBLE_QUOTE
    else if IsSubstring(word, SINGLE_QUOTES) then SINGLE_QUOTE
    else word
  }

  predicate IsCzechOrGerman(language: Language)
  {
    language == Czech || language == German
  }

  /** The counters after the Czech and German overrides: „ ‚ force 0, “ ‘ force 1. */
  function ResetQuotes(cfg: Config, word: string, quotes: map<string, nat>): map<string, nat>
  {
    if IsCzechOrGerman(cfg.language) && IsSubstring(word, LOW_QUOTES) then quotes[QuoteType(word) := 0]
    else if IsCzechOrGerman(cfg.language) && IsSubstring(word, HIGH_QUOTES) then quotes[QuoteType(word) := 1]
    else quotes
  }

  /**
   * The quote rule: an English possessive is glued on; otherwise an even counter
   * opens a quotation and an odd one closes it, and the counter then goes up.
   * A quote type that is not a key of the dictionary raises `KeyError`.
   */
  function QuoteStep(cfg: Config, word: string, st: PassState): Result<PassState>
  {
    var quotes := ResetQuotes(cfg, word, st.quotes);
    var qt := QuoteType(word);
    if cfg.language == English && EndsWithS(st.text) then Ok(PassState(st.text + word, " ", quotes))
    else if qt !in quotes then Err("KeyError")
    else if quotes[qt] % 2 == 0 then Ok(PassState(st.text + st.preSpc + word, "", quotes[qt := quotes[qt] + 1]))
    else Ok(PassState(st.text + word, " ", quotes[qt := quotes[qt] + 1]))
  }

  /** The rules of the loop body; `Default` is the one that applies when no other does. */
  datatype Rule = Cjk | Opening | Glued | Contraction | Quote | Default

  /** The number of rules tried before falling back to `Default`. */
  const RULE_COUNT: nat := 5

  /** The rule the source tries k-th (counting from 0). */
  function RuleAt(k: nat): (r: Rule)
    requires k < RULE_COUNT
    ensures r != Default
  {
    if k == 0 then Cjk else if k == 1 then Opening else if k == 2 then Glued
    else if k == 3 then Contraction else Quote
  }

  /** The rule's condition holds for the token at pos, given the text written so far. */
  predicate Applies(rule: Rule, cfg: Config, words: seq<string>, pos: nat, text: string)
    requires pos < |words|
  {
    match rule
    case Cjk => CjkJoin(text, words[pos])
    case Opening => IsOpeningToken(words[pos])
    case Glued => IsGluedPunct(cfg, words[pos])
    case Contraction => IsContraction(cfg, words, pos)
    case Quote => IsQuoteToken(words[pos])
    case Default => true
  }

  /** The first rule from the k-th on whose condition holds. */
  function FirstRule(cfg: Config, words: seq<string>, pos: nat, text: string, k: nat): (r: Rule)
    requires pos < |words| && k <= RULE_COUNT
    ensures Applies(r, cfg, words, pos, text)
    decreases RULE_COUNT - k
  {
    if k == RULE_COUNT then Default
    else if Applies(RuleAt(k), cfg, words, pos, text) then RuleAt(k)
    else FirstRule(cfg, words, pos, text, k + 1)
  }

  /** The rule the loop body takes for the token at pos. */
  function RuleOf(cfg: Config, words: seq<string>, pos: nat, text: string): Rule
    requires pos < |words|
  {
    FirstRule(cfg, words, pos, text, 0)
  }

  /** What a rule does to the loop variables. */
  function ApplyRule(rule: Rule, cfg: Config, word: string, st: PassState): Result<PassState>
  {
    match rule
    case Cjk => Ok(st.(text := st.text + word, preSpc := " "))
    case Opening => Ok(st.(text := st.text + st.preSpc + word, preSpc := ""))
    case Glued => Ok(st.(text := st.text + word, preSpc := " "))
    case Contraction => Ok(st.(text := st.text + word, preSpc := ""))
    case Quote => QuoteStep(cfg, word, st)
    case Default => Ok(st.(text := st.text + st.preSpc + word, preSpc := " "))
  }

  /** One iteration of the loop over the tokens. */
  function Step(cfg: Config, words: seq<string>, pos: nat, st: PassState): Result<PassState>
    requires pos < |words|
  {
    ApplyRule(RuleOf(cfg, words, pos, st.text), cfg, words[pos], st)
  }

  /**
   * The rules are tried in the source's order: a rule is taken exactly when its
   * condition holds and no earlier one's does, and `Default` when none holds.
   */
  lemma RuleOrder(cfg: Config, words: seq<string>, pos: nat, text: string)
    requires pos < |words|
    ensures var w := words[pos]; var r := RuleOf(cfg, words, pos, text);
      (r == Cjk <==> CjkJoin(text, w))
      && (r == Opening <==> !CjkJoin(text, w) && IsOpeningToken(w))
      && (r == Glued <==> !CjkJoin(text, w) && !IsOpeningToken(w) && IsGluedPunct(cfg, w))
      && (r == Contraction <==> !CjkJoin(text, w) && !IsOpeningToken(w) && !IsGluedPunct(cfg, w)
                                && IsContraction(cfg, words, pos))
      && (r == Quote <==> !CjkJoin(text, w) && !IsOpeningToken(w) && !IsGluedPunct(cfg, w)
                          && !IsContraction(cfg, words, pos) && IsQuoteToken(w))
      && (r == Default <==> PlainToken(cfg, words, pos, text))
  {
    assert FirstRule(cfg, words, pos, text, 4) == (if IsQuoteToken(words[pos]) then Quote else Default);
    assert FirstRule(cfg, words, pos, text, 3)
      == (if IsContraction(cfg, words, pos) then Contraction else FirstRule(cfg, words, pos, text, 4));
    assert FirstRule(cfg, words, pos, text, 2)
      == (if IsGluedPunct(cfg, words[pos]) then Glued else FirstRule(cfg, words, pos, text, 3));
  }

  /** The state after the first n tokens, or the error that stopped the loop. */
  function Pass(cfg: Config, words: seq<string>, n: nat): Result<PassState>
    requires n <= |words|
  {
    if n == 0 then Ok(INITIAL)
    else match Pass(cfg, words, n - 1)
      case Err(e) => Err(e)
      case Ok(st) => Step(cfg, words, n - 1, st)
  }

  /** Once a token raises, the loop is over: the error is the outcome of the whole pass. */
  lemma {:induction false} PassStopsAtError(cfg: Config, words: seq<string>, n: nat, m: nat)
    requires n <= m <= |words| && Pass(cfg, words, n).Err?
    ensures Pass(cfg, words, m) == Pass(cfg, words, n)
    decreases m
  {
    if m > n {
      PassStopsAtError(cfg, words, n, m - 1);
    }
  }

  // ---------------------------------------------------------------------------
  // Properties of the pass
  // ---------------------------------------------------------------------------

  /** The tokens concatenated in order. */
  function Concat(words: seq<string>): string
  {
    if words == [] then "" else Concat(words[..|words| - 1]) + words[|words| - 1]
  }

  /** s without its spaces. */
  function RemoveSpaces(s: string): string
  {
    StringUtils.NonWhite(s, {' '})
  }

  /** A rule writes the token, either glued on or after the pending separator, and leaves "" or " " pending. */
  lemma ApplyRuleAppends(rule: Rule, cfg: Config, word: string, st: PassState)
    requires ApplyRule(rule, cfg, word, st).Ok?
    ensures var next := ApplyRule(rule, cfg, word, st).value;
      (next.text == st.text + word || next.text == st.text + st.preSpc + word)
      && (next.preSpc == "" || next.preSpc == " ")
      && st.quotes.Keys <= next.quotes.Keys
  {
    if rule == Quote {
      var q := ResetQuotes(cfg, word, st.quotes);
      assert st.quotes.Keys <= q.Keys;
    }
  }

  /** So does a step of the pass. */
  lemma StepAppends(cfg: Config, words: seq<string>, pos: nat, st: PassState)
    requires pos < |words| && Step(cfg, words, pos, st).Ok?
    ensures var next := Step(cfg, words, pos, st).value;
      (next.text == st.text + words[pos] || next.text == st.text + st.preSpc + words[pos])
      && (next.preSpc == "" || next.preSpc == " ")
      && st.quotes.Keys <= next.quotes.Keys
  {
    ApplyRuleAppends(RuleOf(cfg, words, pos, st.text), cfg, words[pos], st);
  }

  /** Appending a token, with or without a separator of spaces, appends it to the text without spaces. */
  lemma AppendKeepsText(before: string, sep: string, w: string, after: string)
    requires sep == "" || sep == " "
    requires after == before + w || after == before + sep + w
    ensures RemoveSpaces(after) == RemoveSpaces(before) + RemoveSpaces(w)
  {
    if after == before + w {
      StringUtils.NonWhiteConcat(before, w, {' '});
    } else {
      StringUtils.NonWhiteConcat(before + sep, w, {' '});
      StringUtils.NonWhiteConcat(before, sep, {' '});
      StringUtils.NonWhiteAllIn(sep, {' '});
    }
  }

  /**
   * Throughout the pass the pending separator is "" or " ", the three quote
   * counters stay in the dictionary, and deleting the spaces from the text gives
   * the tokens read so far with their spaces deleted: the pass only ever inserts
   * spaces between tokens.
   */
  lemma {:induction false} PassInvariant(cfg: Config, words: seq<string>, n: nat)
    requires n <= |words| && Pass(cfg, words, n).Ok?
    ensures var st := Pass(cfg, words, n).value;
      (st.preSpc == "" || st.preSpc == " ")
      && {SINGLE_QUOTE, DOUBLE_QUOTE, BACKTICK} <= st.quotes.Keys
      && RemoveSpaces(st.text) == RemoveSpaces(Concat(words[..n]))
  {
    if n == 0 {
      assert words[..0] == [];
    } else {
      assert Pass(cfg, words, n - 1).Ok?;
      PassInvariant(cfg, words, n - 1);
      var st := Pass(cfg, words, n - 1).value;
      PassNext(cfg, words, n - 1, st);
      StepAppends(cfg, words, n - 1, st);
      var w := words[n - 1];
      AppendKeepsText(st.text, st.preSpc, w, Pass(cfg, words, n).value.text);
      assert words[..n][..n - 1] == words[..n - 1];
      assert Concat(words[..n]) == Concat(words[..n - 1]) + w;
      StringUtils.NonWhiteConcat(Concat(words[..n - 1]), w, {' '});
    }
  }

  lemma {:induction false} RemoveSpacesJoin(parts: seq<string>)
    requires |parts| >= 1
    ensures RemoveSpaces(StringUtils.Join(parts, ' ')) == RemoveSpaces(Concat(parts))
  {
    if |parts| == 1 {
      assert parts[..0] == [];
      assert Concat(parts) == "" + parts[0] == parts[0];
    } else {
      RemoveSpacesJoin(parts[1..]);
      ConcatCons(parts);
      StringUtils.NonWhiteConcat(parts[0] + [' '], StringUtils.Join(parts[1..], ' '), {' '});
      StringUtils.NonWhiteConcat(parts[0], [' '], {' '});
      StringUtils.NonWhiteConcat(parts[0], Concat(parts[1..]), {' '});
    }
  }

  lemma {:induction false} ConcatCons(parts: seq<string>)
    requires |parts| >= 1
    ensures Concat(parts) == parts[0] + Concat(parts[1..])
    decreases |parts|
  {
    if |parts| > 1 {
      var init := parts[..|parts| - 1];
      ConcatCons(init);
      assert init[1..] == parts[1..][..|parts| - 2];
    } else {
      assert parts[..0] == [];
    }
  }

  /**
   * The pass loses no character and adds none but spaces: deleting the spaces from
   * its text gives the stripped sentence with its spaces deleted.
   */
  lemma PassKeepsText(cfg: Config, sentence: string)
    ensures var words := StringUtils.Split(PyStrip(sentence), ' ');
      Pass(cfg, words, |words|).Ok? ==>
        RemoveSpaces(Pass(cfg, words, |words|).value.text) == RemoveSpaces(PyStrip(sentence))
  {
    var x := PyStrip(sentence);
    var words := StringUtils.Split(x, ' ');
    if Pass(cfg, words, |words|).Ok? {
      PassInvariant(cfg, words, |words|);
      assert words[..|words|] == words;
      StringUtils.JoinSplit(x, ' ');
      RemoveSpacesJoin(words);
    }
  }

  /** The token at pos falls through every special rule to the default one. */
  predicate PlainToken(cfg: Config, words: seq<string>, pos: nat, text: string)
    requires pos < |words|
  {
    !CjkJoin(text, words[pos]) && !IsOpeningToken(words[pos]) && !IsGluedPunct(cfg, words[pos])
    && !IsContraction(cfg, words, pos) && !IsQuoteToken(words[pos])
  }

  /** The state after n + 1 tokens is the step taken from the state after n. */
  lemma PassNext(cfg: Config, words: seq<string>, n: nat, st: PassState)
    requires n < |words| && Pass(cfg, words, n) == Ok(st)
    ensures Pass(cfg, words, n + 1) == Step(cfg, words, n, st)
  {
  }

  /** The state after n + 1 tokens is the rule of token n applied to the state after n. */
  lemma PassRule(cfg: Config, words: seq<string>, n: nat, st: PassState, rule: Rule)
    requires n < |words| && Pass(cfg, words, n) == Ok(st) && RuleOf(cfg, words, n, st.text) == rule
    ensures Pass(cfg, words, n + 1) == ApplyRule(rule, cfg, words[n], st)
  {
  }

  /** A token in none of the special classes is written after the pending separator, and one space becomes pending. */
  lemma DefaultRule(cfg: Config, words: seq<string>, pos: nat, st: PassState)
    requires pos < |words| && PlainToken(cfg, words, pos, st.text)
    ensures Step(cfg, words, pos, st) == Ok(PassState(st.text + st.preSpc + words[pos], " ", st.quotes))
  {
    RuleOrder(cfg, words, pos, st.text);
  }

  /** An opening token is written after the pending separator and leaves nothing pending. */
  lemma OpeningRule(cfg: Config, words: seq<string>, pos: nat, st: PassState)
    requires pos < |words| && !CjkJoin(st.text, words[pos]) && IsOpeningToken(words[pos])
    ensures Step(cfg, words, pos, st) == Ok(PassState(st.text + st.preSpc + words[pos], "", st.quotes))
  {
    RuleOrder(cfg, words, pos, st.text);
  }

  /** With nothing pending, whatever rule the next token takes writes it directly after the text. */
  lemma NothingPendingAttaches(rule: Rule, cfg: Config, word: string, st: PassState)
    requires st.preSpc == "" && ApplyRule(rule, cfg, word, st).Ok?
    ensures ApplyRule(rule, cfg, word, st).value.text == st.text + word
  {
    assert st.text + st.preSpc + word == st.text + word;
  }

  /**
   * An opening bracket or currency token takes the pending separator and leaves
   * none, so the token after it is attached whatever its rule: "( a" becomes "(a".
   */
  lemma OpeningAttachesNext(cfg: Config, words: seq<string>, pos: nat, st: PassState)
    requires pos + 1 < |words| && Pass(cfg, words, pos) == Ok(st)
    requires RuleOf(cfg, words, pos, st.text) == Opening && Pass(cfg, words, pos + 2).Ok?
    ensures Pass(cfg, words, pos + 2).value.text == st.text + st.preSpc + words[pos] + words[pos + 1]
  {
    var mid := PassState(st.text + st.preSpc + words[pos], "", st.quotes);
    PassRule(cfg, words, pos, st, Opening);
    var rule := RuleOf(cfg, words, pos + 1, mid.text);
    PassRule(cfg, words, pos + 1, mid, rule);
    NothingPendingAttaches(rule, cfg, words[pos + 1], mid);
  }

  /** A closing punctuation token is glued to the text before it, and a space becomes pending. */
  lemma GluedPunctRule(cfg: Config, words: seq<string>, pos: nat, st: PassState)
    requires pos < |words| && !CjkJoin(st.text, words[pos]) && !IsOpeningToken(words[pos])
    requires IsGluedPunct(cfg, words[pos])
    ensures Step(cfg, words, pos, st) == Ok(PassState(st.text + words[pos], " ", st.quotes))
  {
    RuleOrder(cfg, words, pos, st.text);
  }

  /** "?" is glued to the preceding word, except in French, where it keeps its space. */
  lemma QuestionMarkSpacing(cfg: Config, words: seq<string>, pos: nat, st: PassState)
    requires pos < |words| && words[pos] == "?"
    ensures cfg.language != French ==> Step(cfg, words, pos, st) == Ok(PassState(st.text + "?", " ", st.quotes))
    ensures cfg.language == French ==> Step(cfg, words, pos, st) == Ok(PassState(st.text + st.preSpc + "?", " ", st.quotes))
  {
    var w := words[pos];
    assert !CjkJoin(st.text, w) by { assert !IsCjk(w[0]); }
    assert BeforeFinalNewline(w) == None;
    assert !IsOpeningToken(w) by { assert !InClass(CurrencyOrInitPunct, w[0]); }
    if cfg.language == French {
      assert !IsGluedPunct(cfg, w) by { assert MatchesOne(w, FrPrespacePunct); }
      assert w !in CONTRACTION_MARK_TOKENS;
      NotSubstringOneChar(w, QUOTES);
      DefaultRule(cfg, words, pos, st);
    } else {
      assert IsGluedPunct(cfg, w) by { assert InClass(NoPrespacePunct, w[0]); }
      GluedPunctRule(cfg, words, pos, st);
    }
  }

  /** A one-character token is a substring of s only if its character occurs in s. */
  lemma NotSubstringOneChar(w: string, s: string)
    requires |w| == 1 && w[0] !in s
    ensures !IsSubstring(w, s)
  {
    forall i | 0 <= i < |s|
      ensures !(w <= s[i..])
    {
      assert s[i..][0] == s[i];
    }
  }

  /** A two-character token whose first character does not occur in s is not a substring of s. */
  lemma NotSubstringTwo(w: string, s: string)
    requires |w| == 2 && w[0] !in s
    ensures !IsSubstring(w, s)
  {
    forall i | 0 <= i < |s|
      ensures !(w <= s[i..])
    {
      assert s[i..][0] == s[i];
    }
  }

  /** The contraction-mark tokens are exactly the substrings of the mark characters. */
  lemma ContractionMarkTokens(w: string)
    ensures w in CONTRACTION_MARK_TOKENS <==> IsSubstring(w, CONTRACTION_MARKS)
  {
    if w in CONTRACTION_MARK_TOKENS {
      TokenIsMarkSubstring(w);
    }
    if IsSubstring(w, CONTRACTION_MARKS) {
      MarkSubstringIsToken(w);
    }
  }

  /** Each listed token occurs in the contraction marks. */
  lemma TokenIsMarkSubstring(w: string)
    requires w in CONTRACTION_MARK_TOKENS
    ensures IsSubstring(w, CONTRACTION_MARKS)
  {
    var m := CONTRACTION_MARKS;
    if w == [] || w[0] == '\'' {
      assert w <= m[0..];
    } else if w[0] == '-' {
      assert w <= m[1..];
    } else {
      assert w <= m[2..];
    }
  }

  /** Every substring of the contraction marks is listed. */
  lemma MarkSubstringIsToken(w: string)
    requires IsSubstring(w, CONTRACTION_MARKS)
    ensures w in CONTRACTION_MARK_TOKENS
  {
    var m := CONTRACTION_MARKS;
    var i :| 0 <= i <= |m| && w <= m[i..];
    assert m[0] == '\'' && m[1] == '-' && m[2] == '\U{2013}';
    if |w| == 0 {
    } else if i == 0 {
      assert w[0] == '\'';
      if |w| == 1 {
        assert w == "'";
      } else if |w| == 2 {
        assert w[1] == '-';
        assert w == "'-";
      } else {
        assert w[1] == '-' && w[2] == '\U{2013}';
        assert w == "'-\U{2013}";
      }
    } else if i == 1 {
      assert w[0] == '-';
      if |w| == 1 {
        assert w == "-";
      } else {
        assert w[1] == '\U{2013}';
        assert w == "-\U{2013}";
      }
    } else {
      assert w[0] == '\U{2013}';
      assert w == "\U{2013}";
    }
  }

  /**
   * A contraction mark between two tokens whose concatenation is a contraction of
   * the language is glued on both sides: "it ' s" becomes "it's".
   */
  lemma ContractionGluesBothSides(cfg: Config, words: seq<string>, pos: nat, st: PassState)
    requires pos + 1 < |words| && Pass(cfg, words, pos) == Ok(st)
    requires RuleOf(cfg, words, pos, st.text) == Contraction && Pass(cfg, words, pos + 2).Ok?
    ensures Pass(cfg, words, pos + 2).value.text == st.text + words[pos] + words[pos + 1]
  {
    var mid := PassState(st.text + words[pos], "", st.quotes);
    PassRule(cfg, words, pos, st, Contraction);
    var rule := RuleOf(cfg, words, pos + 1, mid.text);
    PassRule(cfg, words, pos + 1, mid, rule);
    NothingPendingAttaches(rule, cfg, words[pos + 1], mid);
  }

  /** A contraction mark is glued on and leaves nothing pending. */
  lemma ContractionRule(cfg: Config, words: seq<string>, pos: nat, st: PassState)
    requires pos < |words| && !CjkJoin(st.text, words[pos]) && !IsOpeningToken(words[pos])
    requires !IsGluedPunct(cfg, words[pos]) && IsContraction(cfg, words, pos)
    ensures Step(cfg, words, pos, st) == Ok(PassState(st.text + words[pos], "", st.quotes))
  {
    RuleOrder(cfg, words, pos, st.text);
  }

  /** The contraction rule needs a token on each side. */
  lemma ContractionNeedsNeighbours(cfg: Config, words: seq<string>, pos: nat)
    requires pos < |words| && (pos == 0 || pos == |words| - 1)
    ensures !IsContraction(cfg, words, pos)
  {
  }

  /** English "it ' s" is a contraction: the three tokens match the English pattern. */
  lemma EnglishItsIsContraction(cfg: Config)
    requires cfg.language == English
    ensures IsContraction(cfg, ["it", "'", "s"], 1)
  {
    var x := ["it", "'", "s"];
    var joined := x[0] + x[1] + x[2];
    assert joined == "it's";
    assert AlphaThen(joined, "'s") by {
      assert joined[..2] == "it" && joined[2..] == "'s";
      assert AllAlpha("it");
      assert CiEqStr("'s", "'s");
    }
  }

  /**
   * Quote parity: outside English possessives, a quote whose counter is even opens
   * (written after the pending separator, nothing pending after it), an odd one
   * closes (glued on, a space pending); either way its counter goes up by one.
   */
  lemma QuoteParity(cfg: Config, word: string, st: PassState)
    requires !(cfg.language == English && EndsWithS(st.text))
    requires QuoteType(word) in ResetQuotes(cfg, word, st.quotes)
    ensures var q := ResetQuotes(cfg, word, st.quotes); var qt := QuoteType(word);
      QuoteStep(cfg, word, st) == Ok(
        if q[qt] % 2 == 0 then PassState(st.text + st.preSpc + word, "", q[qt := q[qt] + 1])
        else PassState(st.text + word, " ", q[qt := q[qt] + 1]))
  {
  }

  /** `"` is a quote token in none of the earlier classes, counted as itself. */
  lemma DoubleQuoteToken(cfg: Config, words: seq<string>, pos: nat, text: string)
    requires pos < |words| && words[pos] == DOUBLE_QUOTE
    ensures !CjkJoin(text, words[pos]) && !IsOpeningToken(words[pos]) && !IsGluedPunct(cfg, words[pos])
    ensures !IsContraction(cfg, words, pos) && IsQuoteToken(words[pos])
    ensures QuoteType(words[pos]) == DOUBLE_QUOTE
  {
    var w := words[pos];
    assert !IsCjk(w[0]);
    assert BeforeFinalNewline(w) == None;
    assert !InClass(CurrencyOrInitPunct, w[0]) && !InClass(NoPrespacePunct, w[0]);
    assert w !in CONTRACTION_MARK_TOKENS;
    assert w <= QUOTES[1..];
    NotSubstringOneChar(w, DOUBLE_QUOTES);
    NotSubstringOneChar(w, SINGLE_QUOTES);
  }

  /** The step on a `"` token, outside English, Czech, German and French. */
  lemma DoubleQuoteStep(cfg: Config, words: seq<string>, pos: nat, st: PassState)
    requires pos < |words| && words[pos] == DOUBLE_QUOTE
    requires cfg.language !in {English, Czech, German, French}
    requires DOUBLE_QUOTE in st.quotes
    ensures var c := st.quotes[DOUBLE_QUOTE];
      Step(cfg, words, pos, st) == Ok(
        if c % 2 == 0 then PassState(st.text + st.preSpc + DOUBLE_QUOTE, "", st.quotes[DOUBLE_QUOTE := c + 1])
        else PassState(st.text + DOUBLE_QUOTE, " ", st.quotes[DOUBLE_QUOTE := c + 1]))
  {
    DoubleQuoteToken(cfg, words, pos, st.text);
    RuleOrder(cfg, words, pos, st.text);
    assert Step(cfg, words, pos, st) == QuoteStep(cfg, DOUBLE_QUOTE, st);
  }

  /** In English a quote after a word ending in "s" is a possessive: glued on, no counter touched. */
  lemma EnglishPossessive(cfg: Config, word: string, st: PassState)
    requires cfg.language == English && EndsWithS(st.text)
    ensures QuoteStep(cfg, word, st) == Ok(PassState(st.text + word, " ", st.quotes))
  {
  }

  /** In Czech and German „ always opens a quotation and “ always closes one, whatever the counter. */
  lemma CzechGermanQuotes(cfg: Config, st: PassState)
    requires IsCzechOrGerman(cfg.language)
    ensures QuoteStep(cfg, "\U{201E}", st)
      == Ok(PassState(st.text + st.preSpc + "\U{201E}", "", st.quotes[DOUBLE_QUOTE := 1]))
    ensures QuoteStep(cfg, "\U{201C}", st)
      == Ok(PassState(st.text + "\U{201C}", " ", st.quotes[DOUBLE_QUOTE := 2]))
  {
    var low, high := "\U{201E}", "\U{201C}";
    assert low <= DOUBLE_QUOTES[0..] && low <= LOW_QUOTES[0..];
    assert QuoteType(low) == DOUBLE_QUOTE;
    assert ResetQuotes(cfg, low, st.quotes) == st.quotes[DOUBLE_QUOTE := 0];
    assert st.quotes[DOUBLE_QUOTE := 0][DOUBLE_QUOTE := 1] == st.quotes[DOUBLE_QUOTE := 1];
    assert high <= DOUBLE_QUOTES[1..] && high <= HIGH_QUOTES[0..];
    assert QuoteType(high) == DOUBLE_QUOTE;
    NotSubstringOneChar(high, LOW_QUOTES);
    assert ResetQuotes(cfg, high, st.quotes) == st.quotes[DOUBLE_QUOTE := 1];
    assert st.quotes[DOUBLE_QUOTE := 1][DOUBLE_QUOTE := 2] == st.quotes[DOUBLE_QUOTE := 2];
  }

  /**
   * An empty token (two spaces in a row) is a substring of the quote characters and
   * of the contraction marks, so outside a contraction window it counts as a double
   * quote: with an even counter it writes the pending separator and leaves none.
   */
  lemma EmptyTokenIsQuote(cfg: Config, words: seq<string>, pos: nat, st: PassState)
    requires pos < |words| && words[pos] == "" && !IsContraction(cfg, words, pos)
    requires !IsCzechOrGerman(cfg.language) && !(cfg.language == English && EndsWithS(st.text))
    requires DOUBLE_QUOTE in st.quotes && st.quotes[DOUBLE_QUOTE] % 2 == 0
    ensures Step(cfg, words, pos, st)
      == Ok(PassState(st.text + st.preSpc, "", st.quotes[DOUBLE_QUOTE := st.quotes[DOUBLE_QUOTE] + 1]))
  {
    assert "" <= DOUBLE_QUOTES[0..] && "" <= QUOTES[0..];
    RuleOrder(cfg, words, pos, st.text);
    assert st.text + st.preSpc + "" == st.text + st.preSpc;
  }

  /**
   * A token made of two quote characters, such as `'"`, has no counter of its own:
   * outside an English possessive the pass raises `KeyError`.
   */
  lemma TwoQuoteTokenRaises(cfg: Config, words: seq<string>, pos: nat, st: PassState)
    requires pos < |words| && words[pos] == "'\"" && !IsContraction(cfg, words, pos)
    requires !(cfg.language == English && EndsWithS(st.text))
    requires st.quotes.Keys == {SINGLE_QUOTE, DOUBLE_QUOTE, BACKTICK}
    ensures Step(cfg, words, pos, st) == Err("KeyError")
  {
    var w := words[pos];
    assert w <= QUOTES[0..];
    assert !IsCjk(w[0]) && BeforeFinalNewline(w) == None;
    assert !InClass(CurrencyOrInitPunct, w[0]) && !InClass(NoPrespacePunct, w[0]);
    NotSubstringTwo(w, DOUBLE_QUOTES);
    NotSubstringTwo(w, SINGLE_QUOTES);
    NotSubstringTwo(w, LOW_QUOTES);
    NotSubstringTwo(w, HIGH_QUOTES);
    RuleOrder(cfg, words, pos, st.text);
  }

  // ---------------------------------------------------------------------------
  // De-escaping and stripping
  // ---------------------------------------------------------------------------

  /** The Moses escapes, in the order they are undone; `&amp;` comes last. */
  const ESCAPES: seq<(string, string)> := [
    ("&bar;", "|"), ("&lt;", "<"), ("&gt;", ">"), ("&bra;", "["), ("&ket;", "]"), ("&amp;", "&")]

  /** Python's `s.replace(old, new)`: non-overlapping occurrences, left to right. */
  function ReplaceAll(s: string, pattern: string, repl: string): string
    requires pattern != []
  {
    if s == [] then []
    else if pattern <= s then repl + ReplaceAll(s[|pattern|..], pattern, repl)
    else [s[0]] + ReplaceAll(s[1..], pattern, repl)
  }

  /** The text after undoing the first k escapes. */
  function DeescapeFirst(s: string, k: nat): string
    requires k <= |ESCAPES|
  {
    if k == 0 then s else ReplaceAll(DeescapeFirst(s, k - 1), ESCAPES[k - 1].0, ESCAPES[k - 1].1)
  }

  function Deescape(s: string): string
  {
    DeescapeFirst(s, |ESCAPES|)
  }

  /** Replacing a pattern that does not occur leaves the text as it is. */
  lemma {:induction false} ReplaceAbsent(s: string, pattern: string, repl: string)
    requires pattern != [] && !IsSubstring(pattern, s)
    ensures ReplaceAll(s, pattern, repl) == s
  {
    if s != [] {
      assert !(pattern <= s[0..]);
      assert !IsSubstring(pattern, s[1..]) by {
        forall i | 0 <= i <= |s[1..]|
          ensures !(pattern <= s[1..][i..])
        {
          assert s[1..][i..] == s[i + 1..];
        }
      }
      ReplaceAbsent(s[1..], pattern, repl);
      assert [s[0]] + s[1..] == s;
    }
  }

  /** A pattern beginning with a character the text lacks does not occur in it. */
  lemma AbsentFirstChar(s: string, pattern: string)
    requires pattern != [] && pattern[0] !in s
    ensures !IsSubstring(pattern, s)
  {
    forall i | 0 <= i <= |s|
      ensures !(pattern <= s[i..])
    {
      if i < |s| {
        assert s[i..][0] == s[i];
      }
    }
  }

  /** Every Moses escape begins with `&`. */
  lemma EscapesStartWithAmpersand(k: nat)
    requires k < |ESCAPES|
    ensures ESCAPES[k].0 != [] && ESCAPES[k].0[0] == '&'
  {
  }

  /** Escapes that do not occur in the text leave it unchanged. */
  lemma {:induction false} DeescapeAbsent(s: string, k: nat)
    requires k <= |ESCAPES|
    requires forall j :: 0 <= j < k ==> !IsSubstring(ESCAPES[j].0, s)
    ensures DeescapeFirst(s, k) == s
  {
    if k > 0 {
      DeescapeAbsent(s, k - 1);
      ReplaceAbsent(s, ESCAPES[k - 1].0, ESCAPES[k - 1].1);
    }
  }

  /** Text without `&` holds no escape, and de-escaping leaves it unchanged. */
  lemma DeescapeWithoutAmpersand(s: string)
    requires '&' !in s
    ensures Deescape(s) == s
  {
    forall j | 0 <= j < |ESCAPES|
      ensures !IsSubstring(ESCAPES[j].0, s)
    {
      EscapesStartWithAmpersand(j);
      AbsentFirstChar(s, ESCAPES[j].0);
    }
    DeescapeAbsent(s, |ESCAPES|);
  }

  /** In `&amp;lt;` the only `&` is the first character, and `a` follows it. */
  lemma AbsentFromEscapedEscape(p: string)
    requires |p| >= 2 && p[0] == '&' && p[1] != 'a'
    ensures !IsSubstring(p, "&amp;lt;")
  {
    var s := "&amp;lt;";
    forall i | 0 <= i <= |s|
      ensures !(p <= s[i..])
    {
      if 0 < i < |s| {
        assert s[i..][0] == s[i] != '&';
      }
    }
  }

  /** None of the first five escapes occurs in `&amp;lt;`. */
  lemma EscapedEscapeKeptByFirstFive()
    ensures DeescapeFirst("&amp;lt;", 5) == "&amp;lt;"
  {
    AbsentFromEscapedEscape("&bar;");
    AbsentFromEscapedEscape("&lt;");
    AbsentFromEscapedEscape("&gt;");
    AbsentFromEscapedEscape("&bra;");
    AbsentFromEscapedEscape("&ket;");
    DeescapeAbsent("&amp;lt;", 5);
  }

  /** Undoing `&amp;` in `&amp;lt;` gives `&lt;`. */
  lemma EscapedEscapeLastStep()
    ensures ReplaceAll("&amp;lt;", "&amp;", "&") == "&lt;"
  {
    var s, rest := "&amp;lt;", "lt;";
    assert "&amp;" <= s && s[5..] == rest;
    AbsentFirstChar(rest, "&amp;");
    ReplaceAbsent(rest, "&amp;", "&");
  }

  /**
   * `&amp;` is undone last, so an escaped escape is undone once only:
   * `&amp;lt;` becomes `&lt;`, not `<`.
   */
  lemma AmpersandLast()
    ensures Deescape("&amp;lt;") == "&lt;"
  {
    EscapedEscapeKeptByFirstFive();
    EscapedEscapeLastStep();
    assert ESCAPES[5] == ("&amp;", "&");
  }

  /** The characters `unicode.strip()` removes. */
  const PY_WHITESPACE: set<char> := {
    9 as char, 10 as char, 11 as char, 12 as char, 13 as char, 28 as char, 29 as char, 30 as char,
    31 as char, ' ', 0x85 as char, 0xA0 as char, 0x1680 as char, 0x180E as char, 0x2000 as char,
    0x2001 as char, 0x2002 as char, 0x2003 as char, 0x2004 as char, 0x2005 as char, 0x2006 as char,
    0x2007 as char, 0x2008 as char, 0x2009 as char, 0x200A as char, 0x2028 as char, 0x2029 as char,
    0x202F as char, 0x205F as char, 0x3000 as char}

  function PyStrip(s: string): string
  {
    StringUtils.Trimmed(s, PY_WHITESPACE)
  }

  /** What `post_process` returns for one sentence (capitalisation off), or the error it raises. */
  function Detokenize(cfg: Config, sentence: string): Result<string>
  {
    var words := StringUtils.Split(PyStrip(sentence), ' ');
    match Pass(cfg, words, |words|)
    case Err(e) => Err(e)
    case Ok(st) => Ok(PyStrip(if cfg.mosesDeescape then Deescape(st.text) else st.text))
  }

  // ---------------------------------------------------------------------------
  // post_process
  // ---------------------------------------------------------------------------

  /** The quote branch of the loop body, on the loop variables. */
  method ApplyQuote(cfg: Config, word: string, sentence: string, preSpc: string, quoteCount: map<string, nat>)
    returns (r: Result<PassState>)
    ensures r == QuoteStep(cfg, word, PassState(sentence, preSpc, quoteCount))
  {
    var quotes := quoteCount;
    var quoteType := QuoteType(word);
    if IsCzechOrGerman(cfg.language) && IsSubstring(word, LOW_QUOTES) {
      quotes := quotes[quoteType := 0];
    } else if IsCzechOrGerman(cfg.language) && IsSubstring(word, HIGH_QUOTES) {
      quotes := quotes[quoteType := 1];
    }
    if cfg.language == English && EndsWithS(sentence) {
      return Ok(PassState(sentence + word, " ", quotes));
    }
    if quoteType !in quotes {
      return Err("KeyError");
    }
    if quotes[quoteType] % 2 == 0 {
      r := Ok(PassState(sentence + preSpc + word, "", quotes[quoteType := quotes[quoteType] + 1]));
    } else {
      r := Ok(PassState(sentence + word, " ", quotes[quoteType := quotes[quoteType] + 1]));
    }
  }

  /** One iteration of the loop over the tokens: the rules tried in turn on the loop variables. */
  method LoopBody(cfg: Config, words: seq<string>, pos: nat, sentence: string, preSpc: string, quoteCount: map<string, nat>)
    returns (r: Result<PassState>)
    requires pos < |words|
    ensures r == Step(cfg, words, pos, PassState(sentence, preSpc, quoteCount))
  {
    var word := words[pos];
    RuleOrder(cfg, words, pos, sentence);
    if CjkJoin(sentence, word) {
      r := Ok(PassState(sentence + word, " ", quoteCount));
    } else if IsOpeningToken(word) {
      r := Ok(PassState(sentence + preSpc + word, "", quoteCount));
    } else if IsGluedPunct(cfg, word) {
      r := Ok(PassState(sentence + word, " ", quoteCount));
    } else if IsContraction(cfg, words, pos) {
      r := Ok(PassState(sentence + word, "", quoteCount));
    } else if IsQuoteToken(word) {
      r := ApplyQuote(cfg, word, sentence, preSpc, quoteCount);
    } else {
      r := Ok(PassState(sentence + preSpc + word, " ", quoteCount));
    }
  }

  /** The de-escaping loop: each escape in turn replaced throughout the text. */
  method DeescapeText(text: string) returns (sentence: string)
    ensures sentence == Deescape(text)
  {
    sentence := text;
    var k := 0;
    while k < |ESCAPES|
      invariant k <= |ESCAPES|
      invariant sentence == DeescapeFirst(text, k)
    {
      sentence := ReplaceAll(sentence, ESCAPES[k].0, ESCAPES[k].1);
      k := k + 1;
    }
  }

  /**
   * `post_process`: strip, split on spaces, paste the tokens back rule by rule,
   * undo the escapes when asked, strip again.
   */
  method PostProcess(cfg: Config, input: string) returns (r: Result<string>)
    ensures r == Detokenize(cfg, input)
  {
    var sentence := PyStrip(input);
    var words := StringUtils.Split(sentence, ' ');
    sentence := INITIAL.text;
    var preSpc := INITIAL.preSpc;
    var quoteCount := INITIAL.quotes;
    var pos := 0;
    while pos < |words|
      invariant pos <= |words|
      invariant Pass(cfg, words, pos) == Ok(PassState(sentence, preSpc, quoteCount))
    {
      var next := LoopBody(cfg, words, pos, sentence, preSpc, quoteCount);
      PassNext(cfg, words, pos, PassState(sentence, preSpc, quoteCount));
      if next.Err? {
        PassStopsAtError(cfg, words, pos + 1, |words|);
        return Err(next.msg);
      }
      sentence, preSpc, quoteCount := next.value.text, next.value.preSpc, next.value.quotes;
      pos := pos + 1;
    }
    if cfg.mosesDeescape {
      sentence := DeescapeText(sentence);
    }
    r := Ok(PyStrip(sentence));
  }

  // ---------------------------------------------------------------------------
  // process_sentences
  // ---------------------------------------------------------------------------

  /** What the stream wrote, and the error that ended it if one did. */
  datatype Output = Output(written: string, error: Option<string>)

  /** Output already written followed by the output of the remaining lines. */
  function AppendWritten(prefix: string, o: Output): (r: Output)
    ensures r.error == o.error && |r.written| == |prefix| + |o.written|
  {
    Output(prefix + o.written, o.error)
  }

  /** Each line followed by a newline, in order. */
  function Terminated(lines: seq<string>): (r: string)
    ensures |lines| == 0 ==> r == ""
  {
    if lines == [] then "" else lines[0] + "\n" + Terminated(lines[1..])
  }

  /**
   * What `process_sentences` writes when it applies func to the lines of its input:
   * every line but the last followed by a newline, the last one without. An error
   * raised by func ends the stream after what was already written, and an input
   * without lines raises `IndexError` at `sentences[-1]`.
   */
  function ProcessLines(func: string -> Result<string>, lines: seq<string>): Output
  {
    if lines == [] then Output("", Some("IndexError"))
    else match func(lines[0])
      case Err(e) => Output("", Some(e))
      case Ok(s) =>
        if |lines| == 1 then Output(s, None)
        else AppendWritten(s + "\n", ProcessLines(func, lines[1..]))
  }

  /** When func succeeds on every line, the output is the results joined by newlines, with no error. */
  lemma {:induction false} ProcessLinesAllOk(func: string -> Result<string>, lines: seq<string>, outs: seq<string>)
    requires |lines| == |outs| >= 1
    requires forall i :: 0 <= i < |lines| ==> func(lines[i]) == Ok(outs[i])
    ensures ProcessLines(func, lines) == Output(StringUtils.Join(outs, '\n'), None)
  {
    assert func(lines[0]) == Ok(outs[0]);
    if |lines| > 1 {
      forall i | 0 <= i < |lines| - 1
        ensures func(lines[1..][i]) == Ok(outs[1..][i])
      {
        assert func(lines[i + 1]) == Ok(outs[i + 1]);
      }
      ProcessLinesAllOk(func, lines[1..], outs[1..]);
    }
  }

  /**
   * When func fails on line k after succeeding on the lines before it, the stream
   * holds those results, each with its newline, and ends with func's error.
   */
  lemma {:induction false} ProcessLinesStopsAtError(func: string -> Result<string>, lines: seq<string>, outs: seq<string>, e: string)
    requires |outs| < |lines| && func(lines[|outs|]) == Err(e)
    requires forall i :: 0 <= i < |outs| ==> func(lines[i]) == Ok(outs[i])
    ensures ProcessLines(func, lines) == Output(Terminated(outs), Some(e))
  {
    if outs != [] {
      assert func(lines[0]) == Ok(outs[0]);
      forall i | 0 <= i < |outs| - 1
        ensures func(lines[1..][i]) == Ok(outs[1..][i])
      {
        assert func(lines[i + 1]) == Ok(outs[i + 1]);
      }
      assert lines[1..][|outs| - 1] == lines[|outs|];
      ProcessLinesStopsAtError(func, lines[1..], outs[1..], e);
      assert outs[0] + "\n" + Terminated(outs[1..]) == Terminated(outs);
    }
  }

  /** The streaming loop of `process_sentences` over the lines read from its input. */
  method ProcessSentences(func: string -> Result<string>, sentences: seq<string>) returns (out: Output)
    ensures out == ProcessLines(func, sentences)
  {
    var written := "";
    var i: nat := 0;
    while i + 1 < |sentences|
      invariant i == 0 || i < |sentences|
      invariant ProcessLines(func, sentences) == AppendWritten(written, ProcessLines(func, sentences[i..]))
    {
      var s := func(sentences[i]);
      if s.Err? {
        return Output(written, Some(s.msg));
      }
      assert sentences[i..][1..] == sentences[i + 1..];
      assert ProcessLines(func, sentences[i..]) == AppendWritten(s.value + "\n", ProcessLines(func, sentences[i + 1..]));
      written := written + s.value + "\n";
      i := i + 1;
    }
    if sentences == [] {
      return Output(written, Some("IndexError"));
    }
    assert sentences[i..] == [sentences[|sentences| - 1]];
    var last := func(sentences[|sentences| - 1]);
    if last.Err? {
      return Output(written, Some(last.msg));
    }
    out := Output(written + last.value, None);
  }
}
