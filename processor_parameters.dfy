/**
 * The processor's run-time parameters: the pre- and post-processor script call
 * templates, per language and by default, and how a call string is built from a
 * template by substituting the job id and the language.
 *
 * `replace` (from a string helper header), `language_registry` and the values of the
 * two template parameter names (set in `processor_parameters.cpp`) are not part of this
 * model: `replace` substitutes the first occurrence, a language's uid is its name, and
 * the parameter names are `<JOB_UID>` and `<LANGUAGE>`; the proofs rely only on each
 * name starting with `<` and holding no other `<`.
 */
module ProcessorParameters {
  import opened Wrappers
  import opened StringUtils

  const PROC_JOB_ID_TEMPL_PARAM_NAME: string := "<JOB_UID>"
  const LANGUAGE_TEMPL_PARAM_NAME: string := "<LANGUAGE>"

  /** `language_config`: the language and the script call template. */
  datatype LanguageConfig = LanguageConfig(lang: string, callTempl: string)

  /** A config as default-constructed: no language, no template. */
  const NO_CONFIG := LanguageConfig("", "")

  // ---------------------------------------------------------------------------
  // Searching and replacing
  // ---------------------------------------------------------------------------

  /** `sub` occurs in `s` at index `i`. */
  predicate OccursAt(s: string, sub: string, i: nat)
  {
    i + |sub| <= |s| && s[i..i + |sub|] == sub
  }

  /** `s.find(sub, from)`: the first index from `from` on where `sub` occurs. */
  function FindFrom(s: string, sub: string, from: nat): (r: Option<nat>)
    ensures r.Some? ==> from <= r.value && OccursAt(s, sub, r.value)
    ensures r.Some? ==> forall j :: from <= j < r.value ==> !OccursAt(s, sub, j)
    ensures r.None? ==> forall j: nat :: from <= j ==> !OccursAt(s, sub, j)
    decreases |s| - from
  {
    if |s| < from + |sub| then None
    else if OccursAt(s, sub, from) then Some(from)
    else FindFrom(s, sub, from + 1)
  }

  /** `s.find(sub)`. */
  function Find(s: string, sub: string): Option<nat>
  {
    FindFrom(s, sub, 0)
  }

  /** `replace(s, from, to)`: the first occurrence of `from` replaced by `to`. */
  function ReplaceFirst(s: string, from: string, to: string): (r: string)
    ensures Find(s, from).None? ==> r == s
  {
    match Find(s, from)
    case None => s
    case Some(p) => s[..p] + to + s[p + |from|..]
  }

  /** An occurrence with none before it is the one replaced. */
  lemma ReplaceFirstAt(s: string, from: string, to: string, p: nat)
    requires OccursAt(s, from, p) && forall i :: 0 <= i < p ==> !OccursAt(s, from, i)
    ensures ReplaceFirst(s, from, to) == s[..p] + to + s[p + |from|..]
  {
    var f := Find(s, from);
    assert f.Some?;
    assert f.value == p;
  }

  /** `s` starts with `c` and holds no other `c`. */
  predicate OnlyFirstIs(s: string, c: char)
  {
    |s| > 0 && s[0] == c && forall i :: 1 <= i < |s| ==> s[i] != c
  }

  /** No character of `s` is `c`. */
  predicate NoneIs(s: string, c: char)
  {
    forall i :: 0 <= i < |s| ==> s[i] != c
  }

  lemma ParamNamesShape()
    ensures OnlyFirstIs(PROC_JOB_ID_TEMPL_PARAM_NAME, '<') && OnlyFirstIs(LANGUAGE_TEMPL_PARAM_NAME, '<')
    ensures PROC_JOB_ID_TEMPL_PARAM_NAME[1] != LANGUAGE_TEMPL_PARAM_NAME[1]
  {
  }

  // ---------------------------------------------------------------------------
  // The language config
  // ---------------------------------------------------------------------------

  /**
   * `get_call_string`: an empty template gives the empty string; otherwise the job id
   * placeholder is replaced, then the language placeholder.
   */
  function GetCallString(c: LanguageConfig, procJobId: string, lang: string): (r: string)
    ensures c.callTempl == "" ==> r == ""
  {
    if c.callTempl != "" then
      ReplaceFirst(ReplaceFirst(c.callTempl, PROC_JOB_ID_TEMPL_PARAM_NAME, procJobId), LANGUAGE_TEMPL_PARAM_NAME, lang)
    else ""
  }

  function MissingParamMsg(callTempl: string, name: string): string
  {
    "The call template: '" + callTempl + "' does not contain template parameter '" + name + "'"
  }

  /**
   * `set_call_template`: the config of `lang` with the template, if the template holds
   * both placeholders; otherwise the error naming the first one missing, and no config.
   */
  function SetCallTemplate(lang: string, callTempl: string): (r: Result<LanguageConfig>)
    ensures r.Ok? <==> (exists i :: OccursAt(callTempl, PROC_JOB_ID_TEMPL_PARAM_NAME, i))
                       && (exists i :: OccursAt(callTempl, LANGUAGE_TEMPL_PARAM_NAME, i))
    ensures r.Ok? ==> r.value == LanguageConfig(lang, callTempl)
    ensures r.Err? ==> r.msg == MissingParamMsg(callTempl,
                          if Find(callTempl, PROC_JOB_ID_TEMPL_PARAM_NAME).None? then PROC_JOB_ID_TEMPL_PARAM_NAME
                          else LANGUAGE_TEMPL_PARAM_NAME)
  {
    if Find(callTempl, PROC_JOB_ID_TEMPL_PARAM_NAME).None? then
      Err(MissingParamMsg(callTempl, PROC_JOB_ID_TEMPL_PARAM_NAME))
    else if Find(callTempl, LANGUAGE_TEMPL_PARAM_NAME).None? then
      Err(MissingParamMsg(callTempl, LANGUAGE_TEMPL_PARAM_NAME))
    else
      Ok(LanguageConfig(lang, callTempl))
  }

  /** The template holds both placeholders. */
  predicate ValidTemplate(callTempl: string)
  {
    SetCallTemplate("", callTempl).Ok?
  }

  // ---------------------------------------------------------------------------
  // Substitution
  // ---------------------------------------------------------------------------

  /** An occurrence of `a` at `i` puts the characters of `a` from `i` on. */
  lemma CharAt(s: string, a: string, i: nat, k: nat)
    requires OccursAt(s, a, i) && k < |a|
    ensures s[i + k] == a[k]
  {
    assert s[i..i + |a|][k] == s[i + k];
  }

  /** A name starting with `<` does not occur where there is no `<`. */
  lemma NotAtOtherChar(s: string, a: string, i: nat)
    requires OnlyFirstIs(a, '<') && i < |s| && s[i] != '<'
    ensures !OccursAt(s, a, i)
  {
    assert i + |a| <= |s| ==> s[i..i + |a|][0] == s[i];
  }

  /** `a` does not occur at `i` when a character there differs from it. */
  lemma NotAtDiffering(s: string, a: string, i: nat, k: nat)
    requires k < |a| && i + k < |s| && s[i + k] != a[k]
    ensures !OccursAt(s, a, i)
  {
    assert i + |a| <= |s| ==> s[i..i + |a|][k] == s[i + k];
  }

  /** Two occurrences of names that start with `<` and hold no other `<` do not overlap. */
  lemma NoOverlap(t: string, a: string, b: string, p: nat, q: nat)
    requires OnlyFirstIs(a, '<') && OnlyFirstIs(b, '<')
    requires OccursAt(t, a, p) && OccursAt(t, b, q) && p < q
    ensures p + |a| <= q
  {
    CharAt(t, b, q, 0);
    forall j | p < j < p + |a|
      ensures t[j] != '<'
    {
      CharAt(t, a, p, j - p);
    }
  }

  /** In a template whose only `<` are the two placeholders, the job id one is the first occurrence. */
  lemma JobIdFirstAt(t: string, p: nat, q: nat)
    requires OccursAt(t, PROC_JOB_ID_TEMPL_PARAM_NAME, p) && OccursAt(t, LANGUAGE_TEMPL_PARAM_NAME, q)
    requires forall i :: 0 <= i < |t| && i != p && i != q ==> t[i] != '<'
    ensures forall i :: 0 <= i < p ==> !OccursAt(t, PROC_JOB_ID_TEMPL_PARAM_NAME, i)
  {
    ParamNamesShape();
    forall i | 0 <= i < p
      ensures !OccursAt(t, PROC_JOB_ID_TEMPL_PARAM_NAME, i)
    {
      if i == q {
        CharAt(t, LANGUAGE_TEMPL_PARAM_NAME, q, 1);
        NotAtDiffering(t, PROC_JOB_ID_TEMPL_PARAM_NAME, q, 1);
      } else {
        NotAtOtherChar(t, PROC_JOB_ID_TEMPL_PARAM_NAME, i);
      }
    }
  }

  /** A string whose only `<` before `q` is none holds the language placeholder first at `q`. */
  lemma LangFirstAt(r: string, q: nat)
    requires OccursAt(r, LANGUAGE_TEMPL_PARAM_NAME, q)
    requires forall i :: 0 <= i < q ==> r[i] != '<'
    ensures forall i :: 0 <= i < q ==> !OccursAt(r, LANGUAGE_TEMPL_PARAM_NAME, i)
  {
    ParamNamesShape();
    forall i | 0 <= i < q
      ensures !OccursAt(r, LANGUAGE_TEMPL_PARAM_NAME, i)
    {
      NotAtOtherChar(r, LANGUAGE_TEMPL_PARAM_NAME, i);
    }
  }

  /**
   * The call string of a template whose only `<` are the two placeholders, for a job
   * id without `<`: the template with the job id and the language put in place of
   * their placeholders, whichever comes first.
   */
  lemma CallStringSubstitutes(c: LanguageConfig, procJobId: string, lang: string, p: nat, q: nat)
    requires OccursAt(c.callTempl, PROC_JOB_ID_TEMPL_PARAM_NAME, p)
    requires OccursAt(c.callTempl, LANGUAGE_TEMPL_PARAM_NAME, q)
    requires forall i :: 0 <= i < |c.callTempl| && i != p && i != q ==> c.callTempl[i] != '<'
    requires NoneIs(procJobId, '<')
    ensures var t, J, L := c.callTempl, PROC_JOB_ID_TEMPL_PARAM_NAME, LANGUAGE_TEMPL_PARAM_NAME;
            (p + |J| <= q || q + |L| <= p) &&
            GetCallString(c, procJobId, lang) ==
              if p < q then t[..p] + procJobId + t[p + |J|..q] + lang + t[q + |L|..]
              else t[..q] + lang + t[q + |L|..p] + procJobId + t[p + |J|..]
  {
    var t, J, L := c.callTempl, PROC_JOB_ID_TEMPL_PARAM_NAME, LANGUAGE_TEMPL_PARAM_NAME;
    ParamNamesShape();
    CharAt(t, J, p, 1);
    CharAt(t, L, q, 1);
    JobIdFirstAt(t, p, q);
    ReplaceFirstAt(t, J, procJobId, p);
    var r1 := t[..p] + procJobId + t[p + |J|..];
    if p < q {
      NoOverlap(t, J, L, p, q);
      SubstituteAfter(t, procJobId, lang, p, q, r1);
    } else {
      NoOverlap(t, L, J, q, p);
      SubstituteBefore(t, procJobId, lang, p, q, r1);
    }
  }

  /** The language placeholder after the job id one: its place shifts by the length change. */
  lemma SubstituteAfter(t: string, procJobId: string, lang: string, p: nat, q: nat, r1: string)
    requires OccursAt(t, LANGUAGE_TEMPL_PARAM_NAME, q)
    requires p + |PROC_JOB_ID_TEMPL_PARAM_NAME| <= q
    requires forall i :: 0 <= i < |t| && i != p && i != q ==> t[i] != '<'
    requires NoneIs(procJobId, '<')
    requires r1 == t[..p] + procJobId + t[p + |PROC_JOB_ID_TEMPL_PARAM_NAME|..]
    ensures var J, L := PROC_JOB_ID_TEMPL_PARAM_NAME, LANGUAGE_TEMPL_PARAM_NAME;
            ReplaceFirst(r1, L, lang) == t[..p] + procJobId + t[p + |J|..q] + lang + t[q + |L|..]
  {
    var J, L := PROC_JOB_ID_TEMPL_PARAM_NAME, LANGUAGE_TEMPL_PARAM_NAME;
    var d := p + |procJobId|;
    var q' := d + (q - p - |J|);
    assert r1[q'..q' + |L|] == t[q..q + |L|];
    forall i | 0 <= i < q'
      ensures r1[i] != '<'
    {
      if i < p {
        assert r1[i] == t[i];
      } else if i < d {
        assert r1[i] == procJobId[i - p];
      } else {
        assert r1[i] == t[i - d + p + |J|];
      }
    }
    LangFirstAt(r1, q');
    ReplaceFirstAt(r1, L, lang, q');
    assert r1[..q'] == t[..p] + procJobId + t[p + |J|..q];
    assert r1[q' + |L|..] == t[q + |L|..];
  }

  /** The language placeholder before the job id one: it keeps its place. */
  lemma SubstituteBefore(t: string, procJobId: string, lang: string, p: nat, q: nat, r1: string)
    requires OccursAt(t, LANGUAGE_TEMPL_PARAM_NAME, q) && p + |PROC_JOB_ID_TEMPL_PARAM_NAME| <= |t|
    requires q + |LANGUAGE_TEMPL_PARAM_NAME| <= p
    requires forall i :: 0 <= i < |t| && i != p && i != q ==> t[i] != '<'
    requires r1 == t[..p] + procJobId + t[p + |PROC_JOB_ID_TEMPL_PARAM_NAME|..]
    ensures var J, L := PROC_JOB_ID_TEMPL_PARAM_NAME, LANGUAGE_TEMPL_PARAM_NAME;
            ReplaceFirst(r1, L, lang) == t[..q] + lang + t[q + |L|..p] + procJobId + t[p + |J|..]
  {
    var J, L := PROC_JOB_ID_TEMPL_PARAM_NAME, LANGUAGE_TEMPL_PARAM_NAME;
    assert r1[q..q + |L|] == t[q..q + |L|];
    forall i | 0 <= i < q
      ensures r1[i] != '<'
    {
      assert r1[i] == t[i];
    }
    LangFirstAt(r1, q);
    ReplaceFirstAt(r1, L, lang, q);
    assert r1[..q] == t[..q];
    assert r1[q + |L|..] == t[q + |L|..p] + procJobId + t[p + |J|..];
  }

  // ---------------------------------------------------------------------------
  // Looking up the call of a language
  // ---------------------------------------------------------------------------

  /** `get_lang_call`: the call of the language's own config if it has one, else of the default. */
  function GetLangCall(procJobId: string, lang: string, configs: map<string, LanguageConfig>, def: LanguageConfig): (r: string)
    ensures lang in configs ==> r == GetCallString(configs[lang], procJobId, lang)
    ensures lang !in configs ==> r == GetCallString(def, procJobId, lang)
    ensures lang in configs && configs[lang].callTempl == "" ==> r == ""
    ensures lang !in configs && def.callTempl == "" ==> r == ""
  {
    if lang in configs then GetCallString(configs[lang], procJobId, lang)
    else GetCallString(def, procJobId, lang)
  }

  /**
   * A language given its own config is called with it, and every other language is
   * called as before.
   */
  lemma LangCallAfterRegister(configs: map<string, LanguageConfig>, def: LanguageConfig, l: string,
                              c: LanguageConfig, procJobId: string, lang: string)
    ensures GetLangCall(procJobId, lang, configs[l := c], def) ==
              if lang == l then GetCallString(c, procJobId, lang) else GetLangCall(procJobId, lang, configs, def)
  {
  }

  /** The config of `l` in `configs` as `operator[]` yields it: a fresh empty one if missing. */
  function Entry(configs: map<string, LanguageConfig>, l: string): LanguageConfig
  {
    if l in configs then configs[l] else NO_CONFIG
  }

  /**
   * `configs` after `configs[l].set_call_template(l, templ)` with a non-empty template:
   * the new config on success; on failure the entry `operator[]` created, which stays.
   */
  function Registered(configs: map<string, LanguageConfig>, l: string, templ: string): (r: map<string, LanguageConfig>)
    ensures l in r && r.Keys == configs.Keys + {l}
    ensures ValidTemplate(templ) ==> r[l] == LanguageConfig(l, templ)
    ensures !ValidTemplate(templ) ==> r[l] == Entry(configs, l)
  {
    match SetCallTemplate(l, templ)
    case Ok(c) => configs[l := c]
    case Err(_) => configs[l := Entry(configs, l)]
  }

  /**
   * A language whose template was rejected, and that had no config before, is left
   * with an empty config: its calls are empty even when the default has a template.
   */
  lemma RejectedLanguageShadowsDefault(configs: map<string, LanguageConfig>, def: LanguageConfig, l: string,
                                       templ: string, procJobId: string)
    requires l !in configs && !ValidTemplate(templ)
    ensures GetLangCall(procJobId, l, Registered(configs, l, templ), def) == ""
  {
  }

  // ---------------------------------------------------------------------------
  // The parameters
  // ---------------------------------------------------------------------------

  /** The `finalize` error, whose thread count is always 0. */
  const ZERO_THREADS_MSG := "The number of request threads: 0 must be larger than zero! "

  class ProcessorParams {
    /** `m_server_port`. */
    var serverPort: nat
    /** `m_num_threads`. */
    var numThreads: nat
    /** `m_work_dir`. */
    var workDir: string
    /** `m_def_pre_config`, `m_def_post_config`: used for languages without their own. */
    var defPreConfig: LanguageConfig
    var defPostConfig: LanguageConfig
    /** `m_pre_configs`, `m_post_configs`: by language. */
    var preConfigs: map<string, LanguageConfig>
    var postConfigs: map<string, LanguageConfig>

    /** Parameters with no language configured. */
    constructor (serverPort: nat, numThreads: nat, workDir: string)
      ensures this.serverPort == serverPort && this.numThreads == numThreads && this.workDir == workDir
      ensures defPreConfig == NO_CONFIG && defPostConfig == NO_CONFIG
      ensures preConfigs == map[] && postConfigs == map[]
    {
      this.serverPort, this.numThreads, this.workDir := serverPort, numThreads, workDir;
      defPreConfig, defPostConfig := NO_CONFIG, NO_CONFIG;
      preConfigs, postConfigs := map[], map[];
    }

    /**
     * `add_language`: trims its arguments; an empty language sets the default configs,
     * any other its own; an empty template is ignored. The pre-processor template is
     * set first: when it is rejected nothing more happens, and when only the
     * post-processor one is rejected the pre-processor one stays set.
     */
    method AddLanguage(lang: string, preCallTempl: string, postCallTempl: string) returns (r: Result<()>)
      modifies this
      ensures var l, pre, post := Trimmed(lang, WHITESPACES), Trimmed(preCallTempl, WHITESPACES), Trimmed(postCallTempl, WHITESPACES);
              var preOk := pre == "" || ValidTemplate(pre);
              var postSet := preOk && post != "";
              && (r.Ok? <==> preOk && (post == "" || ValidTemplate(post)))
              && (l == "" ==>
                    && defPreConfig == (if pre != "" && ValidTemplate(pre) then LanguageConfig(l, pre) else old(defPreConfig))
                    && defPostConfig == (if postSet && ValidTemplate(post) then LanguageConfig(l, post) else old(defPostConfig))
                    && preConfigs == old(preConfigs) && postConfigs == old(postConfigs))
              && (l != "" ==>
                    && preConfigs == (if pre != "" then Registered(old(preConfigs), l, pre) else old(preConfigs))
                    && postConfigs == (if postSet then Registered(old(postConfigs), l, post) else old(postConfigs))
                    && defPreConfig == old(defPreConfig) && defPostConfig == old(defPostConfig))
      ensures serverPort == old(serverPort) && numThreads == old(numThreads) && workDir == old(workDir)
    {
      var l := Trimmed(lang, WHITESPACES);
      var pre := Trimmed(preCallTempl, WHITESPACES);
      var post := Trimmed(postCallTempl, WHITESPACES);
      if l == "" {
        r := AddDefaults(pre, post);
      } else {
        r := AddOwn(l, pre, post);
      }
    }

    /** The default configs part of `add_language`, for trimmed templates. */
    method AddDefaults(pre: string, post: string) returns (r: Result<()>)
      modifies this
      ensures var preOk := pre == "" || ValidTemplate(pre);
              && (r.Ok? <==> preOk && (post == "" || ValidTemplate(post)))
              && defPreConfig == (if pre != "" && ValidTemplate(pre) then LanguageConfig("", pre) else old(defPreConfig))
              && defPostConfig == (if preOk && post != "" && ValidTemplate(post) then LanguageConfig("", post) else old(defPostConfig))
      ensures preConfigs == old(preConfigs) && postConfigs == old(postConfigs)
      ensures serverPort == old(serverPort) && numThreads == old(numThreads) && workDir == old(workDir)
    {
      if pre != "" {
        var c := SetCallTemplate("", pre);
        if c.Err? {
          return Err(c.msg);
        }
        defPreConfig := c.value;
      }
      if post != "" {
        var c := SetCallTemplate("", post);
        if c.Err? {
          return Err(c.msg);
        }
        defPostConfig := c.value;
      }
      r := Ok(());
    }

    /** The part of `add_language` for a non-empty trimmed language `l`. */
    method AddOwn(l: string, pre: string, post: string) returns (r: Result<()>)
      modifies this
      ensures var preOk := pre == "" || ValidTemplate(pre);
              && (r.Ok? <==> preOk && (post == "" || ValidTemplate(post)))
              && preConfigs == (if pre != "" then Registered(old(preConfigs), l, pre) else old(preConfigs))
              && postConfigs == (if preOk && post != "" then Registered(old(postConfigs), l, post) else old(postConfigs))
      ensures defPreConfig == old(defPreConfig) && defPostConfig == old(defPostConfig)
      ensures serverPort == old(serverPort) && numThreads == old(numThreads) && workDir == old(workDir)
    {
      if pre != "" {
        preConfigs := Registered(preConfigs, l, pre);
        var c := SetCallTemplate(l, pre);
        if c.Err? {
          return Err(c.msg);
        }
      }
      if post != "" {
        postConfigs := Registered(postConfigs, l, post);
        var c := SetCallTemplate(l, post);
        if c.Err? {
          return Err(c.msg);
        }
      }
      r := Ok(());
    }

    /** `finalize`: fails exactly when no request thread is configured. */
    method Finalize() returns (r: Result<()>)
      ensures r.Err? <==> numThreads == 0
      ensures r.Err? ==> r.msg == ZERO_THREADS_MSG
    {
      if numThreads == 0 {
        return Err(ZERO_THREADS_MSG);
      }
      return Ok(());
    }

    /** `get_lang_pre_call`. */
    function GetLangPreCall(procJobId: string, lang: string): (r: string)
      reads this
      ensures lang in preConfigs ==> r == GetCallString(preConfigs[lang], procJobId, lang)
      ensures lang !in preConfigs ==> r == GetCallString(defPreConfig, procJobId, lang)
    {
      GetLangCall(procJobId, lang, preConfigs, defPreConfig)
    }

    /** `get_lang_post_call`. */
    function GetLangPostCall(procJobId: string, lang: string): (r: string)
      reads this
      ensures lang in postConfigs ==> r == GetCallString(postConfigs[lang], procJobId, lang)
      ensures lang !in postConfigs ==> r == GetCallString(defPostConfig, procJobId, lang)
    {
      GetLangCall(procJobId, lang, postConfigs, defPostConfig)
    }
  }
}
