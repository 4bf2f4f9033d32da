# A verified model of the Distributed Translation Infrastructure core

This project models the core of a distributed statistical machine-translation system. The system has a C++ translation server, with its n-gram language-model tries, word indexes and translation-job bookkeeping, and a Python detokenizer that post-processes translated text. The model is written in Dafny and proves properties of it. Each source file of the core becomes one module:

- `detokenizer.dfy` models `PostProcessor.post_process`. Tokens are pasted back together in one left-to-right pass whose state is the pending separator and one counter per quote class. The pass has:
  - the CJK rule;
  - the opening-punctuation rule;
  - the no-prespace rule;
  - the contraction rule;
  - the quote rule;
  - the default rule.

  Then Moses escapes are undone in a fixed order. The file also models the line loop of `process_sentences`.
- `text_piece_reader.dfy` models the text-piece reader. It is a class whose cursor fields are advanced by `get_first` and `get_last`. The file also has the delimiter-run search, `operator[]`, `operator==` and `str()`.
- `string_utils.dfy` models `tokenize`, `trim`, `reduce` and `memrchr`.
- `hashing.dfy` and `pairing.dfy` model two groups from `HashingUtils.hpp`, each in fixed-width arithmetic:
  - the string hashes: `hash32_str`, FNV-1, FNV-1a, djb2, RS and the limited `compute_hash`;
  - the Szudzik and Cantor pairings and their inverses.
- `fixed_size_hash_map.dfy`, `ordered_list.dfy`, `dynamic_arrays.dfy` and `bitmap_hash_cache.dfy` model the containers that the source updates in place. Each is a class over an array or a sequence:
  - the fixed-size linear-probing hash map;
  - the bounded ordered list;
  - the growable stack array with its capacity strategy;
  - the bitmap hash cache.
- `word_index.dfy` and `counting_word_index.dfy` model the word indexes:
  - the basic index issues word ids;
  - the counting index re-numbers words by decreasing frequency.
- `byte_m_gram_id.dfy` models the byte-compressed m-gram ids and `m_grams.dfy` the bit-compressed ones. Both use `digits.dfy` and `bits.dfy`. The models cover the minimal byte and bit widths, the id type codes and the `compare` order.
- `w2c_array_trie.dfy` and `c2w_array_trie.dfy` model the two array tries. They use `array_utils.dfy`, which holds the sort and the binary search, and `payloads.dfy`. The models cover:
  - context-offset prefix sums;
  - contiguous context ranges;
  - sorting after each level;
  - look-ups by binary search.
- `trans_job.dfy` models the translation job: its task split, its done/cancel/error counting, its notifier and its status aggregation.
- `processor_parameters.dfy` models the pre- and post-processor call templates: validation, language selection and placeholder substitution.
- `wrappers.dfy` holds the shared `Option`/`Result` types and the fixed-width integer types.

Each operation is proved against a specification of its own:
- Operations that compute a value are functions with lemmas relating them to an independent definition or to an inverse.
- Operations that change state are methods whose postconditions give the new state. Lemmas then state what those postconditions mean, for example:
  - no false negatives in the bitmap cache;
  - the ordering of the ordered list;
  - disjoint context ranges in the tries;
  - decoding of m-gram ids;
  - round trips of the pairing functions.

## Model

| member | source | states |
|---|---|---|
| Detokenizer.LanguageOption | script/text/post_process_nltk.py:102 | an absent language option selects English; a given one selects the language its name names |
| Detokenizer.LanguageOf | script/text/post_process_nltk.py:102 | each of english, french, spanish, italian, czech and german selects its own language and only that name does; any other name selects no special rule |
| Detokenizer.BeforeFinalNewline | script/text/post_process_nltk.py:90-94 | the `$` of the contraction patterns matches at the end of the token or just before a newline that ends it |
| Detokenizer.RuleOrder | script/text/post_process_nltk.py:181-235 | the branch a token takes is the first of CJK, opening, no-prespace, contraction and quote whose condition holds, else the default one; each branch is characterised by an if-and-only-if on the earlier conditions |
| Detokenizer.PassStopsAtError | script/text/post_process_nltk.py:181-231 | once a token raises (a quote token with no counter), the error is the outcome of the whole pass |
| Detokenizer.ApplyRuleAppends | script/text/post_process_nltk.py:183-235 | every branch appends the token, either directly or after the pending separator, leaves "" or " " pending, and drops no quote counter |
| Detokenizer.StepAppends | script/text/post_process_nltk.py:181-235 | the same for one iteration of the loop over the tokens |
| Detokenizer.PassInvariant | script/text/post_process_nltk.py:176-235 | after any number of tokens the pending separator is "" or " ", the three quote counters exist, and the text without spaces is the tokens so far concatenated without spaces |
| Detokenizer.PassKeepsText | script/text/post_process_nltk.py:165-235 | removing the spaces from the pasted sentence gives exactly the stripped input without its spaces: the pass only moves spaces |
| Detokenizer.DefaultRule | script/text/post_process_nltk.py:233-235 | a plain word is appended as pending separator + word, and one space becomes pending |
| Detokenizer.OpeningRule | script/text/post_process_nltk.py:188-190 | a currency or opening-punctuation token is written after the pending separator and leaves nothing pending |
| Detokenizer.NothingPendingAttaches | script/text/post_process_nltk.py:189-202 | with nothing pending, whatever branch the next token takes writes it directly after the text |
| Detokenizer.OpeningAttachesNext | script/text/post_process_nltk.py:188-190 | the token after an opening token is attached to it with no space |
| Detokenizer.GluedPunctRule | script/text/post_process_nltk.py:192-196 | a no-prespace punctuation token is glued to the text before it and one space becomes pending |
| Detokenizer.QuestionMarkSpacing | script/text/post_process_nltk.py:192-196 | "?" is glued to the preceding word except in French, where it keeps the pending separator |
| Detokenizer.ContractionMarkTokens | script/text/post_process_nltk.py:198 | `word in "'-–"` holds exactly for the substrings of the three marks, the empty token included |
| Detokenizer.ContractionGluesBothSides | script/text/post_process_nltk.py:198-202 | a contraction mark is glued to the token before it, and the token after it is glued to the mark |
| Detokenizer.ContractionRule | script/text/post_process_nltk.py:198-202 | a contraction mark is appended directly and leaves nothing pending |
| Detokenizer.ContractionNeedsNeighbours | script/text/post_process_nltk.py:198 | a mark at the first or the last position is never a contraction |
| Detokenizer.EnglishItsIsContraction | script/text/post_process_nltk.py:198-200 | in English the window "it ' s" matches the contraction pattern |
| Detokenizer.QuoteParity | script/text/post_process_nltk.py:224-231 | an even counter opens (separator before, none after), an odd one closes (glued, one space after), and the counter is incremented afterwards |
| Detokenizer.DoubleQuoteToken | script/text/post_process_nltk.py:183-209 | `"` reaches the quote branch and is counted as itself |
| Detokenizer.DoubleQuoteStep | script/text/post_process_nltk.py:204-231 | the full step on `"` outside English, Czech, German and French: open or close by the parity of its counter, which is incremented |
| Detokenizer.EnglishPossessive | script/text/post_process_nltk.py:218-220 | in English, after text ending in "s", a quote is glued on, one space becomes pending and no counter changes |
| Detokenizer.CzechGermanQuotes | script/text/post_process_nltk.py:213-231 | in Czech and German „ always opens (counter set to 0, then 1) and “ always closes (counter set to 1, then 2) |
| Detokenizer.EmptyTokenIsQuote | script/text/post_process_nltk.py:204-226 | an empty token (two spaces in a row) outside a contraction window counts as a double quote and writes the pending separator |
| Detokenizer.TwoQuoteTokenRaises | script/text/post_process_nltk.py:204-231 | a token of two quote characters such as `'"` has no counter of its own and raises KeyError |
| Detokenizer.ReplaceAbsent | script/text/post_process_nltk.py:239 | `replace` of a pattern that does not occur leaves the text unchanged |
| Detokenizer.DeescapeWithoutAmpersand | script/text/post_process_nltk.py:237-239 | text without `&` is unchanged by de-escaping |
| Detokenizer.AmpersandLast | script/text/post_process_nltk.py:82-87 | because `&amp;` is undone last, "&amp;lt;" becomes "&lt;" and not "<": no double de-escaping |
| Detokenizer.ApplyQuote | script/text/post_process_nltk.py:204-231 | the quote branch on the loop variables computes the quote step of the pass |
| Detokenizer.LoopBody | script/text/post_process_nltk.py:181-235 | one loop iteration on the loop variables computes the step of the pass |
| Detokenizer.DeescapeText | script/text/post_process_nltk.py:237-239 | the replace loop computes the de-escaping function |
| Detokenizer.PostProcess | script/text/post_process_nltk.py:159-243 | `post_process` (capitalisation off) computes Detokenize: strip, split on spaces, the pass, the escapes when asked, strip |
| Detokenizer.ProcessLinesAllOk | script/text/post_process_nltk.py:278-283 | when every line succeeds, the output is the results joined by newlines, with none after the last |
| Detokenizer.ProcessLinesStopsAtError | script/text/post_process_nltk.py:278-283 | when a line raises, the output holds the earlier results, each with its newline, and ends with that error |
| Detokenizer.ProcessSentences | script/text/post_process_nltk.py:268-283 | the streaming loop computes the output function of the lines |
| TextPieces.FirstRunIsFirst | inc/common/utils/file/text_piece_reader.hpp:503-541 | the reference search for a delimiter run answers the first run: no run starts between the start and its answer, and none at all when it answers none |
| TextPieces.SkipToDelimiter | inc/common/utils/file/text_piece_reader.hpp:506-533 | resuming the search at the next delimiter (`memchr`) skips no run |
| TextPieces.SubseqAsWritten | inc/common/utils/file/text_piece_reader.hpp:509-537 | the search as written for runs of two or more: whatever it answers is the last character of a run |
| TextPieces.RunFromCount | inc/common/utils/file/text_piece_reader.hpp:519-530 | a delimiter followed by n - 1 delimiters among the next n - 1 characters is exactly a run of n |
| TextPieces.SubseqAsWrittenMissesRun | inc/common/utils/file/text_piece_reader.hpp:529-533 | looking for four newlines in "\nx\n\n\n\n", the search as written resumes at 3 and answers none although a run starts at 2 |
| TextPieces.FirstRunOfExample | inc/common/utils/file/text_piece_reader.hpp:500-541 | the first run of four newlines in that text starts at 2 |
| TextPieces.NextCut | inc/common/utils/file/text_piece_reader.hpp:224-262 | `get_first` hands out nothing exactly when the unread text is empty; otherwise the piece ends no later than the unread text resumes, and something is consumed; the delimiter run is found by the corrected search `FindFirstSubseq`, which differs from the source for delimiters of 4 or more characters |
| TextPieces.NextCutSeparator | inc/common/utils/file/text_piece_reader.hpp:224-262 | what `get_first` consumes after the piece is the first run of delimiters, preceded only by the '\r' of a Windows line end; the piece holds no run; without a run all the rest is handed out |
| TextPieces.CarriageReturnDropped | inc/common/utils/file/text_piece_reader.hpp:246-249 | with the newline delimiter, one '\r' before the newline is removed from the piece |
| TextPieces.CutsPartition | inc/common/utils/file/text_piece_reader.hpp:210-269 | repeated `get_first` calls partition the text: the pieces and the consumed delimiters, in order, rebuild it |
| TextPieces.LastCut | inc/common/utils/file/text_piece_reader.hpp:292-333 | `get_last` hands out nothing exactly on empty text; the piece after the last delimiter holds none; without a delimiter the whole text is handed out; otherwise the delimiter is just before the piece |
| TextPieces.StrNEqMeansEqual | inc/common/utils/file/text_piece_reader.hpp:419-425 | `strncmp` over n characters reports equal texts equal, and for texts without NUL it is exactly equality |
| TextPieces.CLength | inc/common/utils/file/text_piece_reader.hpp:439-440 | `strlen` is the position of the first NUL |
| TextPieces.CountRun | inc/common/utils/file/text_piece_reader.hpp:521-528 | the do-while counts the delimiter at the candidate plus those among the next characters up to the last one |
| TextPieces.FindFirstSubseq | inc/common/utils/file/text_piece_reader.hpp:503-541 | with the search resuming one past a failed candidate, it answers the last character of the first run of n delimiters, and none when there is no run |
| TextPieces.FirstCutOffsets | inc/common/utils/file/text_piece_reader.hpp:218-262 | the lengths `get_first` computes from the search are the reference cut, over the corrected search `FindFirstSubseq` (the same as the source for delimiters shorter than 4 characters) |
| TextPieces.LastCutOffsets | inc/common/utils/file/text_piece_reader.hpp:292-333 | the lengths `get_last` computes from `memrchr` are the reference cut |
| TextPieces.TextPieceReader.constructor | inc/common/utils/file/text_piece_reader.hpp:83-85 | the default reader stands for the empty text with nothing unread |
| TextPieces.TextPieceReader.Set | inc/common/utils/file/text_piece_reader.hpp:116-129 | after `set` the unread rest is the whole piece: `rest == begin`, `restLen == len`, and the rendering is to be regenerated |
| TextPieces.TextPieceReader.HasMore | inc/common/utils/file/text_piece_reader.hpp:346-348 | something is left to read exactly when the unread rest is non-empty |
| TextPieces.TextPieceReader.At | inc/common/utils/file/text_piece_reader.hpp:404-412 | `operator[]` gives the character at an index inside the text and an error outside it |
| TextPieces.TextPieceReader.Equals | inc/common/utils/file/text_piece_reader.hpp:419-425 | equal texts compare equal, and for a text without NUL `operator==` holds iff the lengths and the characters agree |
| TextPieces.TextPieceReader.EqualsCString | inc/common/utils/file/text_piece_reader.hpp:439-446 | comparison with a C string without NUL holds iff the text is that string |
| TextPieces.TextPieceReader.Str | inc/common/utils/file/text_piece_reader.hpp:476-494 | `str()` gives "<NULL>" for an empty text, the exact characters up to MAX_TEXT_PIECE_LENGTH, "<text-too-large>" beyond, and caches the rendering; nothing else changes |
| TextPieces.TextPieceReader.GetFirst | inc/common/utils/file/text_piece_reader.hpp:210-269 | the piece handed out and the new cursor are those of the reference cut; false, with nothing changed, exactly when nothing is left; the cut uses the corrected search `FindFirstSubseq`, so for delimiters of 4 or more characters this is the intended behaviour |
| TextPieces.TextPieceReader.GetLast | inc/common/utils/file/text_piece_reader.hpp:281-340 | a delimiter count other than 1 is an error; otherwise the piece handed out and the shortened rest are those of the reference backward cut |
| StringUtils.FindFirstOf | inc/common/utils/string_utils.hpp:133-138 | `find_first_of` from a position answers the first position holding one of the characters, and none when no such position follows |
| StringUtils.FindFirstNotOf | inc/common/utils/string_utils.hpp:153-190 | `find_first_not_of` answers the first position holding none of the characters, and none when every later character is one of them |
| StringUtils.FindLastNotOf | inc/common/utils/string_utils.hpp:160 | `find_last_not_of` answers the last such position, and none when every character is one of them |
| StringUtils.CountAll | inc/common/utils/string_utils.hpp:130-143 | the count of a character is at most the length, and equals it exactly when every character is that one |
| StringUtils.SplitCount | inc/common/utils/string_utils.hpp:130-143 | `tokenize` produces one more piece than there are delimiters |
| StringUtils.SplitPiecesHaveNoDelimiter | inc/common/utils/string_utils.hpp:130-143 | no piece holds the delimiter |
| StringUtils.JoinSplit | inc/common/utils/string_utils.hpp:130-143 | joining the pieces with the delimiter gives back the input |
| StringUtils.SplitJoin | inc/common/utils/string_utils.hpp:130-143 | splitting pieces without the delimiter, joined by it, gives back the pieces |
| StringUtils.SplitAtFirst | inc/common/utils/string_utils.hpp:134-139 | one loop round: the piece up to the first delimiter, then the pieces of what follows it |
| StringUtils.SplitWithoutDelimiter | inc/common/utils/string_utils.hpp:133-134 | a text without the delimiter is a single piece |
| StringUtils.Tokenize | inc/common/utils/string_utils.hpp:130-143 | the loop clears the output and fills it with the pieces of the input, in order |
| StringUtils.StripLeftSplits | inc/common/utils/string_utils.hpp:153 | stripping on the left removes a prefix made only of whitespace |
| StringUtils.StripRightSplits | inc/common/utils/string_utils.hpp:160 | stripping on the right removes a suffix made only of whitespace |
| StringUtils.TrimmedIsMiddle | inc/common/utils/string_utils.hpp:150-169 | the trimmed text is a middle part of the input with only whitespace around it |
| StringUtils.TrimmedEnds | inc/common/utils/string_utils.hpp:150-169 | the trimmed text neither starts nor ends with whitespace |
| StringUtils.TrimmedEmptyIff | inc/common/utils/string_utils.hpp:155-156 | the trimmed text is empty exactly when the input is all whitespace |
| StringUtils.TrimmedIdempotent | inc/common/utils/string_utils.hpp:150-169 | trimming twice is trimming once |
| StringUtils.TrimmedAt | inc/common/utils/string_utils.hpp:157-164 | the trimmed text is the substring from the first to the last non-whitespace character |
| StringUtils.Trim | inc/common/utils/string_utils.hpp:150-169 | `trim` computes the trimmed text |
| StringUtils.CollapseStep | inc/common/utils/string_utils.hpp:185-194 | one replacement of a maximal whitespace run by `fill`, then the rest |
| StringUtils.ReduceRound | inc/common/utils/string_utils.hpp:185-194 | the loop invariant of `reduce` survives one replacement |
| StringUtils.Reduce | inc/common/utils/string_utils.hpp:178-199 | `reduce` trims, then replaces each maximal whitespace run with `fill` |
| StringUtils.CollapseKeepsText | inc/common/utils/string_utils.hpp:185-194 | with a whitespace `fill`, replacing the runs keeps the non-whitespace characters in order |
| StringUtils.CollapseNoRun | inc/common/utils/string_utils.hpp:185-194 | with a one-character `fill`, no two whitespace characters remain next to each other |
| StringUtils.ReducedEnds | inc/common/utils/string_utils.hpp:178-199 | with a one-character `fill`, the reduced text neither starts nor ends with whitespace |
| StringUtils.ReducedNoRun | inc/common/utils/string_utils.hpp:178-199 | with a one-character `fill`, the reduced text holds no run of two whitespace characters |
| StringUtils.ReducedKeepsText | inc/common/utils/string_utils.hpp:178-199 | with a whitespace `fill`, the reduced text has the non-whitespace characters of the input, in order |
| StringUtils.LastIndexOf | inc/common/utils/string_utils.hpp:66-75 | the last position below n holding the character, and none when there is none |
| StringUtils.MemRChr | inc/common/utils/string_utils.hpp:66-75 | the count-down loop of `memrchr` computes that position |
| Hashing.Hash32StepIsFnv1Step | inc/HashingUtils.hpp:86-119 | on a byte below 128, a step of `hash32_str` equals a step of `basic_fnv_1` |
| Hashing.Hash32StrIsFnv1OnAscii | inc/HashingUtils.hpp:86-119 | on ASCII text `hash32_str` with its default seed is `basic_fnv_1`: the same offset basis and prime, and the signed and unsigned byte agree |
| Hashing.Hash32StrConcat | inc/HashingUtils.hpp:86-92 | hashing a concatenation is hashing the second part seeded with the hash of the first |
| Hashing.ComputeHash32Str | inc/HashingUtils.hpp:86-92 | the loop folds multiply-then-xor over the unsigned bytes from the seed, modulo 2^64 |
| Hashing.BasicFnv1 | inc/HashingUtils.hpp:102-119 | the loop folds multiply-then-xor over the signed bytes from the offset basis |
| Hashing.BasicFnv1a | inc/HashingUtils.hpp:125-133 | the loop folds xor-then-multiply over the signed bytes from the offset basis |
| Hashing.ComputeDjb2Hash | inc/HashingUtils.hpp:262-271 | the loop folds `h * 33 + c` over the signed bytes from 5381 |
| Hashing.RsMultiplierOnlyCountsBytes | inc/HashingUtils.hpp:311-322 | the multiplier `a` after n bytes is `63689 * 378551^n`, whatever the bytes |
| Hashing.ComputeRSHash | inc/HashingUtils.hpp:311-322 | the loop computes `hash = hash * a + c; a = a * b` over the bytes from hash 0 |
| Hashing.LimitedHash | inc/HashingUtils.hpp:615-618 | the limited hash is the 64-bit hash modulo the limit, hence below it |
| Pairing.Wrap64IsMod | inc/HashingUtils.hpp:663-719 | the 64-bit wrap of the id arithmetic is reduction modulo 2^64 |
| Pairing.Trunc32IsMod | inc/HashingUtils.hpp:682-717 | storing into a 32-bit `TShortId` is reduction modulo 2^32 |
| Pairing.ISqrt | inc/HashingUtils.hpp:678-710 | the exact integer square root r of z: r^2 <= z < (r + 1)^2 |
| Pairing.ISqrtUnique | inc/HashingUtils.hpp:678-710 | that root is the only such r |
| Pairing.ISqrtBelow32 | inc/HashingUtils.hpp:710 | the root of a 64-bit value fits in 32 bits |
| Pairing.Szudzik | inc/HashingUtils.hpp:695-698 | `szudzik(x, y)` is `y + x + x*x` when `x >= y`, else `x + y*y`, whenever that fits in 64 bits |
| Pairing.UnszudzikAt | inc/HashingUtils.hpp:709-719 | `unszudzik` given its root r: `(z - r^2, r)` below the diagonal, else `(r, z - r^2 - r)` |
| Pairing.SzudzikRoundTrip | inc/HashingUtils.hpp:695-719 | `unszudzik(szudzik(x, y)) == (x, y)` when the code does not overflow and x fits in a `TShortId` |
| Pairing.SzudzikSurjective | inc/HashingUtils.hpp:695-719 | every 64-bit code is the pairing of its unpaired halves |
| Pairing.TriClosedForm | inc/HashingUtils.hpp:663-666 | the triangle number of s is `s(s + 1) / 2` |
| Pairing.CantorNoOverflow | inc/HashingUtils.hpp:663-666 | without overflow `cantor(x, y)` is `(x+y)(x+y+1)/2 + y` |
| Pairing.CantorDiagonal | inc/HashingUtils.hpp:678 | `floor((sqrt(8z + 1) - 1) / 2)` recovers the diagonal x + y of a code |
| Pairing.UncantorOfCode | inc/HashingUtils.hpp:677-683 | `uncantor` inverts the unbounded pairing when x fits in 32 bits and `8z + 1` in 64 |
| Pairing.CantorRoundTrip | inc/HashingUtils.hpp:663-683 | `uncantor(cantor(x, y)) == (x, y)` under the same bounds |
| Pairing.CantorFits | inc/HashingUtils.hpp:663-666 | under those bounds `cantor` does not overflow |
| FixedSizeHashMaps.NumberOfBuckets | inc/FixedSizeHashMap.hpp:161-171 | a buckets factor below one is rejected, and only then; otherwise the bucket count is a power of two, the least one not below `factor * (num_elems + 1)` |
| FixedSizeHashMaps.Next | inc/FixedSizeHashMap.hpp:198-201 | the probe step `(i + 1) & mask` is `(i + 1) % buckets`: it wraps from the last bucket to the first |
| FixedSizeHashMaps.AddOutcome | inc/FixedSizeHashMap.hpp:76-98 | `add_new_element` raises exactly when `m_size >= m_capacity`; a bucket it hands out is empty |
| FixedSizeHashMaps.NoEmptyMeansAllFull | inc/FixedSizeHashMap.hpp:84-88 | a full round of probing finds no empty bucket exactly when every bucket is full |
| FixedSizeHashMaps.AllFullCount | inc/FixedSizeHashMap.hpp:84-88 | when every bucket is full, the count of full buckets is the bucket count |
| FixedSizeHashMaps.FindAfterStore | inc/FixedSizeHashMap.hpp:76-127 | a key stored in the bucket that `add_new_element` handed out is found by `get_element` from the same hash |
| FixedSizeHashMaps.FindSurvivesStore | inc/FixedSizeHashMap.hpp:76-127 | filling an empty bucket leaves what `get_element` finds for an already-found key unchanged, bucket included |
| FixedSizeHashMaps.AddAndStore | inc/FixedSizeHashMap.hpp:76-98 | an accepted `add_new_element` followed by the caller's store; the key just stored is found from its hash |
| FixedSizeHashMaps.StoredKeysStayFound | inc/FixedSizeHashMap.hpp:76-127 | a key `get_element` finds is still found in the same bucket after any run of later additions and stores |
| FixedSizeHashMaps.CountedAddReturns | inc/FixedSizeHashMap.hpp:76-98 | with at most `size` full buckets among `capacity + 1`, adding never probes forever |
| FixedSizeHashMaps.UncountedAddNeverReturns | inc/FixedSizeHashMap.hpp:76-98 | since `m_size` is never incremented, a two-bucket map hands out both buckets and the third add probes forever instead of raising |
| FixedSizeHashMaps.FixedSizeHashMap.constructor | inc/FixedSizeHashMap.hpp:62-69 | the map starts with the computed number of buckets, all empty, and size 0 |
| FixedSizeHashMaps.FixedSizeHashMap.BucketIdx | inc/FixedSizeHashMap.hpp:178-192 | `hash & mask` is `hash % buckets`, always a valid bucket |
| FixedSizeHashMaps.FixedSizeHashMap.NextBucketIdx | inc/FixedSizeHashMap.hpp:198-201 | the next bucket with wrap-around |
| FixedSizeHashMaps.FixedSizeHashMap.FirstEmptyBucket | inc/FixedSizeHashMap.hpp:79-88 | the probe loop finds the first empty bucket from the hash slot on, and none after a full round |
| FixedSizeHashMaps.FixedSizeHashMap.AddNewElementAsWritten | inc/FixedSizeHashMap.hpp:76-98 | `add_new_element` as written: the capacity check against `m_size`, then the first empty bucket; `m_size` unchanged |
| FixedSizeHashMaps.FixedSizeHashMap.AddNewElement | inc/FixedSizeHashMap.hpp:76-98 | the corrected add counts a handed-out bucket, and with the count kept it never probes forever |
| FixedSizeHashMaps.FixedSizeHashMap.Store | inc/FixedSizeHashMap.hpp:92 | the caller's write through the returned reference fills that bucket and no other |
| FixedSizeHashMaps.FixedSizeHashMap.GetElement | inc/FixedSizeHashMap.hpp:106-127 | the first full bucket equal to the key before an empty bucket, else not found |
| OrderedLists.InsertPos | inc/common/utils/containers/ordered_list.hpp:136-173 | the position a new element takes: after every element it is `<`, before the first it is not `<` |
| OrderedLists.InsertKeepsOrder | inc/common/utils/containers/ordered_list.hpp:136-173 | linking an element in at that position keeps the chain in non-increasing order |
| OrderedLists.InsertAddsElement | inc/common/utils/containers/ordered_list.hpp:191-225 | an insertion adds exactly that element: one more node, the same elements otherwise |
| OrderedLists.InsertFirst | inc/common/utils/containers/ordered_list.hpp:146-171 | a new element becomes first unless it is `<` the current first, which then stays first |
| OrderedLists.BoundedKeepsOrder | inc/common/utils/containers/ordered_list.hpp:233-253 | pruning one excess element drops the last (smallest) one: the result is a prefix, ordered, within the capacity |
| OrderedLists.AddExample | inc/common/utils/containers/ordered_list.hpp:136-253 | with capacity 1 holding 5, adding 3 leaves [5] and adding 7 leaves [7] |
| OrderedLists.OrderedList.constructor | inc/common/utils/containers/ordered_list.hpp:99 | a new list is empty with the given capacity |
| OrderedLists.OrderedList.AddElement | inc/common/utils/containers/ordered_list.hpp:136-173 | the walk links the element in at its ordered position and prunes: the list becomes the bounded insertion, stays ordered and within its capacity |
| OrderedLists.OrderedList.AddAfterThis | inc/common/utils/containers/ordered_list.hpp:191-206 | linking after the node before `idx`, counting it and pruning gives the bounded insertion |
| OrderedLists.OrderedList.AddAsFirst | inc/common/utils/containers/ordered_list.hpp:212-226 | linking in before the first node, counting it and pruning gives the bounded insertion |
| OrderedLists.OrderedList.Prune | inc/common/utils/containers/ordered_list.hpp:233-253 | with the walk stopping at the last node, an excess of one element drops the last node, and size <= capacity afterwards |
| OrderedLists.OrderedList.PruneWalkAsWritten | inc/common/utils/containers/ordered_list.hpp:241-248 | the walk as written runs until the index equals the size, one past the last node, and stands on no node (a NULL link) when it unlinks |
| OrderedLists.InsertPosIs | inc/common/utils/containers/ordered_list.hpp:152-167 | where the walk of `add_elemenent` stops is the insertion position |
| DynamicArrays.GetNewCapacity | inc/common/utils/containers/dynamic_memory_arrays.hpp:132-160 | the new capacity is always larger, by at least the minimum increment; CONSTANT adds exactly the minimum increment; LINEAR at least doubles and adds at least the factor |
| DynamicArrays.CapacityIncBounds | inc/common/utils/containers/dynamic_memory_arrays.hpp:134-160 | the strategy's increment `factor * f(max(c, 1))` is 0 for CONSTANT and at least c and at least the factor for LINEAR |
| DynamicArrays.LinearDoubles | inc/common/utils/containers/dynamic_memory_arrays.hpp:132-160 | LINEAR with factor 1 and a capacity no smaller than the minimum increment exactly doubles it |
| DynamicArrays.DynamicStackArray.constructor | inc/common/utils/containers/dynamic_memory_arrays.hpp:222-230 | a new array holds no memory and no element |
| DynamicArrays.DynamicStackArray.Reallocate | inc/common/utils/containers/dynamic_memory_arrays.hpp:410-447 | growing an array already at the index type's maximum raises and changes nothing; otherwise the capacity becomes `min(new, max)`, the common prefix is kept and, when growing, only the slots in [old capacity, new capacity) are default-constructed |
| DynamicArrays.DynamicStackArray.PreAllocate | inc/common/utils/containers/dynamic_memory_arrays.hpp:259-266 | the capacity becomes the larger of the old one and the requested one: it never shrinks, and the elements stay |
| DynamicArrays.DynamicStackArray.Allocate | inc/common/utils/containers/dynamic_memory_arrays.hpp:273-290 | a full array first grows by the strategy (clamped to the maximum); the new element is the slot at the old size, the size goes up by one and the earlier elements are unchanged; a full array at the maximum raises |
| DynamicArrays.DynamicStackArray.Shrink | inc/common/utils/containers/dynamic_memory_arrays.hpp:295-302 | the capacity becomes the size, and the elements stay |
| DynamicArrays.DynamicStackArray.At | inc/common/utils/containers/dynamic_memory_arrays.hpp:310-322 | `operator[]` below the size is the element at that index |
| BasicWordIndexes.GetNumberOfWords | inc/server/lm/dictionaries/basic_word_index.hpp:73-75 | the words plus the reserved ids below the first known one: exactly `MIN_KNOWN_WORD_ID` more than the word count |
| BasicWordIndexes.BasicWordIndex.constructor | inc/server/lm/dictionaries/basic_word_index.hpp:65-67 | a new index is empty and issues `MIN_KNOWN_WORD_ID` first |
| BasicWordIndexes.BasicWordIndex.Reserve | inc/server/lm/dictionaries/basic_word_index.hpp:81-93 | after `reserve` the map holds `<unk>` with `UNKNOWN_WORD_ID` and the id counter is unchanged |
| BasicWordIndexes.BasicWordIndex.GetWordId | inc/server/lm/dictionaries/basic_word_index.hpp:100-110 | an unregistered word maps to `UNKNOWN_WORD_ID`, a registered one to its id, which is the unknown id or an issued one; the map is only read |
| BasicWordIndexes.BasicWordIndex.RegisterWord | inc/server/lm/dictionaries/basic_word_index.hpp:125-137 | a new word gets the next id and the counter moves on; a known word keeps its id and nothing changes; issued ids stay distinct and in [MIN_KNOWN_WORD_ID, next) |
| CountingWordIndexes.InsertInfoSorted | inc/server/lm/dictionaries/counting_word_index.hpp:68-70 | inserting one word info into a list sorted by `operator<` (heavier first) keeps it sorted |
| CountingWordIndexes.SortInfosSorted | inc/server/lm/dictionaries/counting_word_index.hpp:68-70 | the sort of `my_sort` with `TWordInfo::operator<` yields a list sorted by decreasing weight; `SortInfos` itself keeps the length, the multiset and the words |
| CountingWordIndexes.InsertInfoDistinct | inc/server/lm/dictionaries/counting_word_index.hpp:176 | inserting a word not yet present keeps the words distinct |
| CountingWordIndexes.SortInfosDistinct | inc/server/lm/dictionaries/counting_word_index.hpp:176 | sorting keeps the words distinct |
| CountingWordIndexes.HeavierFirst | inc/server/lm/dictionaries/counting_word_index.hpp:68-70 | in the sorted list a heavier word comes strictly before a lighter one |
| CountingWordIndexes.CollectInfos | inc/server/lm/dictionaries/counting_word_index.hpp:159-170 | the collected infos hold every counted word exactly once, each with its weight |
| CountingWordIndexes.NumberInOrder | inc/server/lm/dictionaries/counting_word_index.hpp:182-190 | the k-th word of the sorted list gets id `first + k`, and the counter ends `|sorted|` further on |
| CountingWordIndexes.NumberedByWeight | inc/server/lm/dictionaries/counting_word_index.hpp:172-190 | numbering a sorted list gives ids in [first, first + n), distinct for distinct words, and smaller ids to heavier words |
| CountingWordIndexes.UnknownPutBack | inc/server/lm/dictionaries/counting_word_index.hpp:155-198 | putting `<unk>` back with its fixed id yields a valid index: ids distinct, `<unk>` at `UNKNOWN_WORD_ID`, all others issued |
| CountingWordIndexes.SortedFromCounted | inc/server/lm/dictionaries/counting_word_index.hpp:164-176 | sorting keeps every info's weight equal to its word's counted weight |
| CountingWordIndexes.DistinctWordsCount | inc/server/lm/dictionaries/counting_word_index.hpp:161-170 | a list of distinct words is as long as its set of words, so the array size is the number of map entries |
| CountingWordIndexes.NumberByWeight | inc/server/lm/dictionaries/counting_word_index.hpp:159-194 | every counted word gets a distinct id in [first, first + n), heavier words smaller ids |
| CountingWordIndexes.PostWordCount | inc/server/lm/dictionaries/counting_word_index.hpp:151-201 | after post-counting every word but `<unk>` has a fresh id at or above the old counter, heavier words smaller ones, `<unk>` has its fixed id, and the counter moved on by the number of words |
| CountingWordIndexes.PutBackKeepsOrder | inc/server/lm/dictionaries/counting_word_index.hpp:157-198 | removing and re-adding `<unk>` does not disturb the weight order of the other words' ids |
| CountingWordIndexes.CountingWordIndex.constructor | inc/server/lm/dictionaries/counting_word_index.hpp:91-99 | the counting index extends the given basic index |
| CountingWordIndexes.CountingWordIndex.CountWord | inc/server/lm/dictionaries/counting_word_index.hpp:127-134 | the word's map entry is overwritten with its weight and the id counter is unchanged |
| CountingWordIndexes.CountingWordIndex.DoPostWordCount | inc/server/lm/dictionaries/counting_word_index.hpp:151-201 | the index becomes valid: `<unk>` fixed, every other word a fresh id, heavier words smaller ids, the counter advanced by the word count |
| CountingWordIndexes.CountingWordIndex.RegisterWord | inc/server/lm/dictionaries/counting_word_index.hpp:115-121 | a counted word yields its issued id; any other word is the error `at` throws |
| ByteMGramIds.NumBytesPow | src/ByteMGramId.cpp:71-113 | a value needs at most `k` bytes exactly when it is below 256^k (both directions) |
| ByteMGramIds.MaxValueInBytesPow | src/ByteMGramId.cpp:56-64 | `MAX_VALUE_IN_BYTES(k)` is 256^k - 1 for k in 1..8 |
| ByteMGramIds.GetNumberOfBytes | src/ByteMGramId.cpp:71-113 | a word id above the 8-byte maximum is refused, any other gets a byte count in 1..8 that holds it and is the least that does |
| ByteMGramIds.NumberOfBytesIsNumBytes | src/ByteMGramId.cpp:71-113 | the chain of comparisons agrees with the independent definition: the number of base-256 digits of the value |
| ByteMGramIds.FitsWordIdAt | src/ByteMGramId.cpp:128-137 | a word id of a `w`-byte type never reaches the throwing branch and needs at most `w` bytes |
| ByteMGramIds.TypeLenBytesFits | inc/ByteMGramId.hpp:115-140 | every id type of a level, 0 to w^n - 1, fits in `ID_TYPE_LEN_BYTES[n]` bytes |
| ByteMGramIds.ReadIds | src/ByteMGramId.cpp:209-214 | reading back word ids by their byte lengths yields one id per length |
| ByteMGramIds.DecodeMGramId | src/ByteMGramId.cpp:179-220 | a decoded id of level `n` has exactly `n` word ids |
| ByteMGramIds.ReadPayload | src/ByteMGramId.cpp:209-214 | the word ids' significant bytes written one after the other read back to the same word ids |
| ByteMGramIds.MGramIdLength | src/ByteMGramId.cpp:179-220 | the id is `ID_TYPE_LEN_BYTES[n]` plus the sum of the word ids' byte lengths, and that sum is at most n*w and below 256, so the `uint8_t` length does not wrap |
| ByteMGramIds.DecodeMGramIdRoundTrip | src/ByteMGramId.cpp:173-220 | the id of any 2- to 6-gram decodes back to its word ids: the id determines the m-gram |
| ByteMGramIds.ComputeByteLengths | src/ByteMGramId.cpp:122-140 | the per-id byte lengths are those of the word ids, and the total is their sum modulo 256 (`uint8_t`) |
| ByteMGramIds.CopyEndBytesToPos | src/ByteMGramId.cpp:207-212 | the low `len` bytes of the value, most significant first, land at `pos`; every other byte of the buffer is unchanged |
| ByteMGramIds.CreateMGramId | src/ByteMGramId.cpp:169-221 | a level outside [2, 6] is an error; otherwise a fresh array holding exactly the m-gram id (type, then each word id's bytes) |
| ByteMGramIds.ComputeMGramId | src/ByteMGramId.cpp:248-296 | the same error case, and otherwise the prefix of the buffer up to the returned length is the same id `create_m_gram_id` builds |
| ByteMGramIds.CopyPayload | src/ByteMGramId.cpp:209-214 | the word ids' bytes are written contiguously from `start`, the returned end is `start` plus their total length, and the bytes outside are kept |
| ByteMGramIds.TypeTableIndexAsWritten | inc/ByteMGramId.hpp:297-317 | the type table is indexed by each raw byte length |
| ByteMGramIds.TypeTableOverrun | inc/ByteMGramId.hpp:297-317 | a `uint32_t` word id of 2^24 needs 4 bytes, and index 4 is past a table dimension of size 4 |
| ByteMGramIds.TypeTableIndex | inc/ByteMGramId.hpp:297-317 | each index is its byte length minus one |
| ByteMGramIds.TypeTableIndexInBounds | inc/ByteMGramId.hpp:297-317 | with the shift, every index of every valid m-gram lies inside the `NUM_BYTES_WORD_ID`-sized dimensions |
| Digits.ToDigitsRoundTrip | src/ByteMGramId.cpp:207-214 | a value below b^n written as n digits reads back to itself |
| Digits.FromToDigits | src/ByteMGramId.cpp:207-214 | writing any value as n digits keeps exactly its value modulo b^n: the bytes above are dropped |
| Digits.ToFromDigits | src/ByteMGramId.cpp:207-214 | n valid digits read as a number and written again give the same digits |
| Digits.TypeCodeBound | src/MGrams.cpp:121-137 | the id type of n lengths in 1..b is below b^n |
| Digits.DecodeTypeCode | src/MGrams.cpp:182-187 | decoding the id type digit by digit gives back every length |
| Digits.SumBound | src/ByteMGramId.cpp:128-137 | n lengths of at most w sum to at most n*w |
| MGrams.TypeMultIsPow | src/MGrams.cpp:108 | the multiplier table holds the powers of 32, one per digit of the id type |
| MGrams.TypeLenBits | src/MGrams.cpp:60-83 | the id type field of level n is 5n bits, exactly enough for the 32^n id types |
| MGrams.BitLenPow | src/MGrams.cpp:101-103 | a value needs at most k bits exactly when it is below 2^k (both directions) |
| MGrams.BitLenFits | src/MGrams.cpp:101-103 | a 32-bit word id needs between 1 and 32 bits and its significant bits hold it |
| MGrams.BytesFor | src/MGrams.cpp:191 | `NUM_BITS_TO_STORE_BYTES` gives the fewest whole bytes holding the bits |
| MGrams.GetGramIdType | src/MGrams.cpp:121-137 | a level above 6 is refused; otherwise the accumulated type is the base-32 number of the bit lengths minus one |
| MGrams.GetGramIdLen | src/MGrams.cpp:148-192 | a level above 6 is refused; otherwise the length is the whole bytes for the type field plus the bit lengths decoded from the type |
| MGrams.DecodeTypeStep | src/MGrams.cpp:182-187 | one step of the decoding loop peels the highest digit, which is one bit length minus one |
| MGrams.GramIdLenOfType | src/MGrams.cpp:148-192 | the bit lengths decoded from an encoded type sum to the original bit lengths, so the decoded length is the written one |
| MGrams.CreateGramId | src/MGrams.cpp:237-302 | a level above 6 is refused; any unknown token makes it return false (`None`), in both directions; otherwise the id is the type field, then the word ids' bits last word first, zero-padded to whole bytes |
| MGrams.LookUpWords | src/MGrams.cpp:260-273 | the lookup succeeds exactly when every token is known, and then yields their word ids, bit lengths and the total id length in bits |
| MGrams.WriteGramId | src/MGrams.cpp:275-299 | the memory written is exactly the padded id of the word ids |
| MGrams.WritePayload | src/MGrams.cpp:296-299 | the loop appends every word id's significant bits, last word first |
| MGrams.PayloadLength | src/MGrams.cpp:268-299 | the payload is as long as the sum of the bit lengths |
| MGrams.TypeBitsOf | src/MGrams.cpp:304-322 | levels 2 to 5 use a type field of 5 bits per word |
| MGrams.SetMGramId | src/MGrams.cpp:332-344 | a level outside 2..5 is refused; otherwise the id of that level's creator, with the same unknown-token outcome |
| MGrams.ReadCreatedType | src/MGrams.cpp:287-293 | the type read back from a created id is the type it was written with |
| MGrams.CreatedIdLength | src/MGrams.cpp:148-192 | `get_gram_id_len` of a created id gives back exactly that id's length |
| MGrams.Compare | src/MGrams.cpp:373-417 | with `IS_LESS` the answer is "one comes before two", otherwise "one does not come before two", in the order by type and then by payload bytes; equal ids answer `!IS_LESS` |
| MGrams.CompareBytes | src/MGrams.cpp:401-414 | the byte loop answers by the first differing byte of the range, `!IS_LESS` when there is none |
| MGrams.LessFromIrreflexive | src/MGrams.cpp:401-414 | no byte range comes before itself |
| MGrams.LessFromAsymmetric | src/MGrams.cpp:401-414 | the byte order is asymmetric |
| MGrams.LessFromTransitive | src/MGrams.cpp:401-414 | the byte order is transitive |
| MGrams.LessFromTotal | src/MGrams.cpp:401-414 | two ranges neither before the other agree on every byte |
| MGrams.IdLessIrreflexive | src/MGrams.cpp:373-417 | no id comes before itself |
| MGrams.IdLessAsymmetric | src/MGrams.cpp:373-417 | the id order is asymmetric |
| MGrams.IdLessTransitive | src/MGrams.cpp:373-417 | the id order is transitive, so sorting by it is well defined |
| MGrams.IdLessTotal | src/MGrams.cpp:384-414 | two ids neither before the other have the same type and the same compared bytes |
| MGrams.PayloadInjective | src/MGrams.cpp:296-299 | word ids with the same bit lengths and the same payload bits are the same |
| MGrams.GramIdInjective | src/MGrams.cpp:237-302 | two m-grams of a level with the same created id have the same word ids |
| MGrams.CreatedIdsEqualIffSameWords | src/MGrams.cpp:237-302 | `compare` finds two created ids equivalent exactly when their word ids are the same |
| MGrams.NewGramIdAsWritten | src/MGrams.cpp:277-284 | freshly allocated id memory keeps its old content after the written bits |
| MGrams.FreshPaddingSplitsOneMGram | src/MGrams.cpp:277-284 | one 2-gram created twice into uncleared memory can give two ids that `compare` orders apart |
| MGrams.MaxIdLenBytesAsWritten | src/MGrams.cpp:88-94 | the level constructor allocates 4 bytes per word |
| MGrams.MaxIdLenTooSmall | src/MGrams.cpp:88-94 | the 2-gram of two 32-bit word ids is 10 bytes long, more than the 8 allocated |
| MGrams.MaxIdLenBytes | src/MGrams.cpp:152-154 | the longest id of a level: 5 type bits and 32 bits per word, in whole bytes |
| MGrams.CreatedIdFits | src/MGrams.cpp:230-275 | every created id fits in that many bytes |
| W2CArrayTries.Offset | inc/server/lm/models/w2c_array_trie.hpp:399-409 | every context index offset is at least `FIRST_VALID_CTX_ID` |
| W2CArrayTries.OffsetsGrow | inc/server/lm/models/w2c_array_trie.hpp:399-409 | a later word's offset is at or past the end of every earlier word's block |
| W2CArrayTries.CtxIdsDisjoint | inc/server/lm/models/w2c_array_trie.hpp:399-409 | the context id blocks of different words are disjoint: one context id names one (word, local index) |
| W2CArrayTries.SortedLevel | inc/server/lm/models/w2c_array_trie.hpp:412-415 | post-processing keeps one array per word |
| W2CArrayTries.Offsets | inc/server/lm/models/w2c_array_trie.hpp:399-409 | one offset per word |
| W2CArrayTries.PostMNGrams | inc/server/lm/models/w2c_array_trie.hpp:393-417 | the loop sorts every word's array by context id and gives each word the offset `FIRST_VALID_CTX_ID` plus the sizes of the words before it |
| W2CArrayTries.PostedSorted | inc/server/lm/models/w2c_array_trie.hpp:412-415 | after post-processing every array is sorted by context id and is a permutation of the entries added |
| W2CArrayTries.GetLocalEntryIdx | inc/server/lm/models/w2c_array_trie.hpp:473-496 | the lookup succeeds exactly when the word's array holds the context id, and then returns the index of that entry; an empty array finds nothing |
| W2CArrayTries.GetEntry | inc/server/lm/models/w2c_array_trie.hpp:508-532 | the entry is found exactly when the context is present, with its payload and the new context id `cio + local index` |
| W2CArrayTries.NextCtxIdsDistinct | inc/server/lm/models/w2c_array_trie.hpp:399-415 | different (word, context) pairs of a level get different next context ids |
| W2CArrayTries.PostKeepsCtxs | inc/server/lm/models/w2c_array_trie.hpp:412-415 | sorting neither loses nor invents a context id, so an added M-gram is still found |
| W2CArrayTries.W2CArrayTrie.constructor | inc/server/lm/models/w2c_array_trie.hpp:114 | the unigrams all start with the given payload and every word's higher-level arrays are empty |
| W2CArrayTries.W2CArrayTrie.AddMGram | inc/server/lm/models/w2c_array_trie.hpp:239-271 | a unigram overwrites its word's payload; a higher M-gram appends one entry to its end word's array on its level (only the probability on the last level); nothing else changes |
| W2CArrayTries.W2CArrayTrie.PostNGrams | inc/server/lm/models/w2c_array_trie.hpp:425-428 | the N-gram level is sorted and given its offsets; the other levels are unchanged |
| W2CArrayTries.W2CArrayTrie.PostMGrams | inc/server/lm/models/w2c_array_trie.hpp:419-423 | one M-gram level is sorted and given its offsets; the other levels are unchanged |
| W2CArrayTries.W2CArrayTrie.PostGrams | inc/server/lm/models/w2c_array_trie.hpp:216-231 | the last level is post-processed as N-grams, a level between as M-grams, the unigrams not at all |
| W2CArrayTries.W2CArrayTrie.GetCtxId | inc/server/lm/models/w2c_array_trie.hpp:128-174 | found exactly when the word's array holds the context, and then the context becomes `cio + local index`; otherwise it is left as it was |
| W2CArrayTries.W2CArrayTrie.GetMGramPayload | inc/server/lm/models/w2c_array_trie.hpp:293-323 | the payload is present exactly when the context is, and it is that entry's payload |
| W2CArrayTries.W2CArrayTrie.GetNGramPayload | inc/server/lm/models/w2c_array_trie.hpp:329-355 | the probability is present exactly when the context is, and it is that entry's probability |
| C2WArrayTries.Compare | inc/C2WArrayTrie.hpp:92-110 | the answer is always -1, 0 or +1 |
| C2WArrayTries.NKey | inc/C2WArrayTrie.hpp:383 | two 32-bit ids packed into one key fit in 64 bits |
| C2WArrayTries.HighHalfDecides | inc/C2WArrayTrie.hpp:383 | a key with the larger high half is larger, whatever the low halves |
| C2WArrayTries.CompareIsKeyOrder | inc/C2WArrayTrie.hpp:92-110 | `compare` orders by word id and then context id, exactly as the packed key orders: -1, 0, +1 each iff the key is smaller, equal, larger |
| C2WArrayTries.KeyDecidesIds | inc/C2WArrayTrie.hpp:383-392 | equal packed keys mean the same word id and context id, so the binary search on keys finds the pair searched for |
| C2WArrayTries.OperatorsAgree | inc/C2WArrayTrie.hpp:117-127 | `<`, `>` and `==` are consistent: exactly one holds, `<` is `>` swapped, and `==` means the same ids |
| C2WArrayTries.AddedRef | inc/C2WArrayTrie.hpp:288-294 | the context's range ends at the index just stored |
| C2WArrayTries.AddKeepsDisjoint | inc/C2WArrayTrie.hpp:285-294 | adding an M-gram to a context whose range ends at the last index used keeps all ranges within the used indexes and pairwise disjoint |
| C2WArrayTries.SortRangeEffect | inc/C2WArrayTrie.hpp:446 | sorting a sub-array sorts exactly that range and leaves every other entry in place |
| C2WArrayTries.NoRanges | inc/C2WArrayTrie.hpp:213 | a fresh level has a range entry per context and none is defined |
| C2WArrayTries.EmptyRanges | inc/C2WArrayTrie.hpp:439 | the level 2 has a range per word, each higher level one per context id of the level below; none is defined and they are trivially disjoint |
| C2WArrayTries.SortPiece | inc/C2WArrayTrie.hpp:446 | the sort keeps the size of the range |
| C2WArrayTries.PostMGramLevel | inc/C2WArrayTrie.hpp:430-449 | every context range with M-grams is sorted by word id and every entry outside the ranges stays where it is |
| C2WArrayTries.PostStep | inc/C2WArrayTrie.hpp:441-448 | one step of the loop sorts one context's range and leaves the others and the rest as they were |
| C2WArrayTries.OthersKept | inc/C2WArrayTrie.hpp:441-448 | sorting one context's range does not touch another context's range |
| C2WArrayTries.PostedRangeSorted | inc/C2WArrayTrie.hpp:446 | after post-processing each context's range is sorted by word id, which the binary search needs |
| C2WArrayTries.SortKeepsWords | inc/C2WArrayTrie.hpp:446 | sorting a range neither loses nor invents a word id |
| C2WArrayTries.GetCtxIdIn | inc/C2WArrayTrie.hpp:183-198 | found exactly when the context has M-grams and one of them ends in the word; then the next context id is that M-gram's index in the range; otherwise the context is left as it was |
| C2WArrayTries.C2WArrayTrie.constructor | inc/C2WArrayTrie.hpp:149-213 | the unigrams start with the given payload; every level has its range table, all undefined, and its data array sized for its M-grams past the first valid index; every counter starts at the first valid index |
| C2WArrayTries.C2WArrayTrie.AddUniGram | inc/C2WArrayTrie.hpp:261-263 | a unigram overwrites its word's payload and nothing else changes |
| C2WArrayTries.C2WArrayTrie.AddMGram | inc/C2WArrayTrie.hpp:280-301 | the M-gram is stored at the level's counter, which goes up by one; its context's range now ends there (and begins there if it was undefined); the ranges stay disjoint; nothing else changes |
| C2WArrayTries.C2WArrayTrie.AddNGram | inc/C2WArrayTrie.hpp:270-279 | the N-gram's word id, context id and probability are stored at the N-gram counter, which goes up by one; nothing else changes |
| C2WArrayTries.C2WArrayTrie.PostMGrams | inc/C2WArrayTrie.hpp:430-449 | the level's data is rewritten with every context's range sorted, the rest in place, and the other levels untouched |
| C2WArrayTries.C2WArrayTrie.PostNGrams | inc/C2WArrayTrie.hpp:451-461 | the N-gram array is sorted by (word id, context id) and nothing else changes |
| C2WArrayTries.C2WArrayTrie.GetCtxId | inc/C2WArrayTrie.hpp:163-199 | as `GetCtxIdIn` on the level's ranges and data |
| C2WArrayTries.C2WArrayTrie.GetMGramPayload | inc/C2WArrayTrie.hpp:328-363 | the payload is present exactly when the context has an M-gram ending in the word, and is that M-gram's payload, with its index as the next context |
| C2WArrayTries.C2WArrayTrie.GetNGramPayload | inc/C2WArrayTrie.hpp:369-402 | the probability is present exactly when an N-gram past the first valid index has the word id and context id, and is that N-gram's probability |
| C2WArrayTries.AddedIsFound | inc/C2WArrayTrie.hpp:285-300 | an M-gram added in a context is found there by word id once its level is post-processed |
| ArrayUtils.InsertBy | inc/server/lm/models/w2c_array_trie.hpp:415 | inserting into a list adds exactly that element |
| ArrayUtils.SortBy | inc/server/lm/models/w2c_array_trie.hpp:415 | the sort that `my_sort` stands for is a permutation of its input |
| ArrayUtils.InsertBySorted | inc/server/lm/models/w2c_array_trie.hpp:415 | inserting into a sorted list keeps it sorted |
| ArrayUtils.SortBySorted | inc/server/lm/models/w2c_array_trie.hpp:85-97 | the result of the sort is sorted by its key |
| ArrayUtils.BSearchBy | inc/server/lm/models/w2c_array_trie.hpp:482 | the binary search of a sorted range finds the key exactly when some entry of the range has it, and returns the index of such an entry |
| BitmapHashCaches.CeilLog2 | inc/server/lm/models/bitmap_hash_cache.hpp:91 | `ceil(log2(n))`: the least exponent whose power of two is at least n |
| BitmapHashCaches.NumBytes4Bits | inc/server/lm/models/bitmap_hash_cache.hpp:93 | `NUM_BYTES_4_BITS`: the fewest bytes that hold the bits |
| BitmapHashCaches.BitPos | inc/server/lm/models/bitmap_hash_cache.hpp:160-175 | the byte index and the bit offset (below 8) locate the bit `key & capacity`, truncated to 32 bits |
| BitmapHashCaches.BitPosInBitmap | inc/server/lm/models/bitmap_hash_cache.hpp:160-175 | with a power-of-two bucket count the byte index is always inside the allocated bitmap |
| BitmapHashCaches.BitPosIsModulo | inc/server/lm/models/bitmap_hash_cache.hpp:160-175 | masking with `m_buckets_capacity` is the key modulo the number of buckets |
| BitmapHashCaches.SetBit | inc/server/lm/models/bitmap_hash_cache.hpp:123 | setting a bit keeps the bitmap's size |
| BitmapHashCaches.SetBitKeeps | inc/server/lm/models/bitmap_hash_cache.hpp:123-143 | after setting the key's bit the key is cached, and every key cached before still is |
| BitmapHashCaches.SetBits | inc/server/lm/models/bitmap_hash_cache.hpp:110-124 | caching several keys keeps the bitmap's size |
| BitmapHashCaches.SetBitsNoFalseNegatives | inc/server/lm/models/bitmap_hash_cache.hpp:110-144 | the cache has no false negatives: every key cached, and every key cached before, is reported as cached |
| BitmapHashCaches.NumBuckets | inc/server/lm/models/bitmap_hash_cache.hpp:91 | the bucket count is at least `buckets_factor * num_elems` and less than twice it |
| BitmapHashCaches.BitmapHashCache.constructor | inc/server/lm/models/bitmap_hash_cache.hpp:67-68 | a new cache has no bitmap and no buckets |
| BitmapHashCaches.BitmapHashCache.PreAllocate | inc/server/lm/models/bitmap_hash_cache.hpp:84-104 | a second allocation is an error and so is zero elements, both changing nothing; otherwise the bucket count is the power of two above, the bitmap is fresh and all bits are off |
| BitmapHashCaches.BitmapHashCache.IsHashCached | inc/server/lm/models/bitmap_hash_cache.hpp:132-144 | a hash is reported cached only if some bit of the bitmap is on, so a freshly cleared bitmap caches nothing |
| BitmapHashCaches.BitmapHashCache.CacheHash | inc/server/lm/models/bitmap_hash_cache.hpp:110-124 | the key's bit is switched on and no other changes: the key is now cached and every key cached before still is |
| TransJobs.Count | inc/server/trans_job.hpp:209-222 | a counter of reports never exceeds the number of reports |
| TransJobs.CountZero | inc/server/trans_job.hpp:209-222 | no report of a status counts zero, in both directions |
| TransJobs.CountAll | inc/server/trans_job.hpp:209-222 | the count equals the number of reports exactly when every report is that status |
| TransJobs.JobStatus | inc/server/trans_job.hpp:306-322 | the job status is OK, CANCELED or PARTIAL, always with its own message |
| TransJobs.JobStatusOfReports | inc/server/trans_job.hpp:306-322 | OK iff no task was canceled or failed; CANCELED iff some task reported and all were canceled; PARTIAL iff some task was canceled or failed but not all were canceled |
| TransJobs.SentDataOf | inc/server/trans_job.hpp:272-288 | a task's response entry carries its target text, status and message, and its translation info exactly when the job asked for it and the task succeeded, else none |
| TransJobs.TransJob.constructor | inc/server/trans_job.hpp:85-103 | one task per source sentence, in order, with the job's session id, job id and priority; no task done, nothing counted |
| TransJobs.TransJob.SetDoneJobNotifier | inc/server/trans_job.hpp:111-113 | the notifier is set and nothing else changes |
| TransJobs.TransJob.IsJobFinished | inc/server/trans_job.hpp:184-192 | the job is finished exactly when every task has reported |
| TransJobs.TransJob.NotifyTaskDone | inc/server/trans_job.hpp:202-242 | the task is counted as done, and as canceled or failed by its status; the notifier is called exactly when the last task is done; if it was never set, that call fails |
| TransJobs.TransJob.CollectJobResults | inc/server/trans_job.hpp:251-300 | the response has the job id, one sentence entry per task in task order, with translation info only when asked for and the task succeeded, and the job status from the counters |
| ProcessorParameters.FindFrom | inc/processor/processor_parameters.hpp:92-98 | `string::find`: the first occurrence at or after `from`, or none when there is no occurrence there at all |
| ProcessorParameters.ReplaceFirst | inc/processor/processor_parameters.hpp:76-77 | a string without the pattern is left unchanged |
| ProcessorParameters.ReplaceFirstAt | inc/processor/processor_parameters.hpp:76-77 | with the first occurrence at p, the pattern at p is replaced and everything else is kept |
| ProcessorParameters.ParamNamesShape | inc/processor/processor_parameters.hpp:61-63 | the two placeholder names start with `<`, contain no other `<`, and differ right after it, so neither can overlap the other |
| ProcessorParameters.GetCallString | inc/processor/processor_parameters.hpp:73-82 | an empty template gives the empty call string |
| ProcessorParameters.SetCallTemplate | inc/processor/processor_parameters.hpp:90-108 | a template is accepted exactly when it contains both placeholders; an accepted one is stored with its language; a rejected one is reported with the first placeholder it lacks |
| ProcessorParameters.CallStringSubstitutes | inc/processor/processor_parameters.hpp:73-82 | in a valid template with the job-id placeholder first at p and the language one first at q, the call string is the template with exactly those two occurrences replaced, in either order |
| ProcessorParameters.SubstituteAfter | inc/processor/processor_parameters.hpp:76-77 | the language placeholder is replaced at its place when it comes after the job id |
| ProcessorParameters.SubstituteBefore | inc/processor/processor_parameters.hpp:76-77 | the language placeholder is replaced at its place when it comes before the job id |
| ProcessorParameters.GetLangCall | inc/processor/processor_parameters.hpp:256-276 | a language with its own config is called with it, whatever the default; any other language with the default; an empty chosen template gives no call |
| ProcessorParameters.LangCallAfterRegister | inc/processor/processor_parameters.hpp:256-276 | after a language's config is stored, its call string comes from that config and every other language's is unchanged |
| ProcessorParameters.Registered | inc/processor/processor_parameters.hpp:202-212 | the language now has an entry: its template when that is valid, otherwise the entry it had or an empty one, because `operator[]` creates it before the template is checked |
| ProcessorParameters.RejectedLanguageShadowsDefault | inc/processor/processor_parameters.hpp:256-276 | a language whose own template was rejected gets the empty call string, not the default one |
| ProcessorParameters.ProcessorParams.constructor | inc/processor/processor_parameters.hpp:149-169 | the given port, thread count and working directory, empty defaults and no language configured |
| ProcessorParameters.ProcessorParams.AddLanguage | inc/processor/processor_parameters.hpp:181-214 | after trimming, an empty language sets the defaults and any other its own configs; empty templates are ignored; the call fails iff a non-empty template lacks a placeholder; the pre-processor template is handled first and a failure there stops before the post-processor one |
| ProcessorParameters.ProcessorParams.AddDefaults | inc/processor/processor_parameters.hpp:191-199 | the default configs take each valid non-empty template; a rejected one leaves its default as it was |
| ProcessorParameters.ProcessorParams.AddOwn | inc/processor/processor_parameters.hpp:200-213 | the language's configs get an entry for each non-empty template, the template itself when it is valid |
| ProcessorParameters.ProcessorParams.Finalize | inc/processor/processor_parameters.hpp:219-224 | fails, with its message, exactly when there are no request threads |
| ProcessorParameters.ProcessorParams.GetLangPreCall | inc/processor/processor_parameters.hpp:232-234 | the pre-processor call of a language: from its own pre-processor config when it has one, else from the default one |
| ProcessorParameters.ProcessorParams.GetLangPostCall | inc/processor/processor_parameters.hpp:242-244 | the post-processor call of a language: from its own post-processor config when it has one, else from the default one |

## Left out

### Detokenizer
- Truecasing and capitalisation (`script/text/post_process_nltk.py:110-156, 168-173`): the NLTK tokenizer, tagger and truecaser model are external capabilities. The pass is modelled with truecasing off.
- Detokenizer.PostProcess: the Unicode regular-expression classes (`\p{Alpha}`, `\p{Sc}`, the CJK ranges, the opening and no-prespace sets) are modelled as character predicates. They cover the characters the rules name and approximate the Unicode property classes.
- The `codecs` file and stream I/O of the script and its command-line handling.

### Text-piece reader
- TextPieces.TextPieceReader.GetFirst, TextPieces.NextCut, TextPieces.FirstCutOffsets: the cut uses the corrected delimiter-run search `FindFirstSubseq`, not `find_first_subseq` as written. For delimiters of 4 or more characters they give the intended cut rather than the source's; see the first row of Findings.

### Hashing and pairing
- MurmurHash, crapWow, Paul Hsieh, the pointer-casting `hash32` and the xxhash wrappers: they reinterpret memory in platform-dependent ways.
- Hashing.LimitedHash: the hash being limited is a parameter rather than MurmurHash64A.
- Hashing: `uint_fast32_t` is taken as 64 bits wide and `char` as signed, as on the x86-64 targets of the server; `ENVIRONMENT64` is assumed.
- Pairing.UnszudzikAt, Pairing.UncantorOfCode: the floating-point square root is replaced by the exact integer square root. Rounding of `sqrt` on large operands is not modelled.

### Containers
- FixedSizeHashMaps.FixedSizeHashMap.constructor: the buckets factor is a rational `num/den` rather than a `double`. A factor below one is rejected by `NumberOfBuckets`, and the constructor requires that check to succeed. The destructor is left out.
- OrderedLists.OrderedList: the node chain is modelled as the sequence of keys. Relinking, the `m_prev` pointers, node aliasing and deletion of the dropped node are not captured.
- DynamicArrays: the `LOG_2` and `LOG_10` capacity strategies use floating point and are left out.
- DynamicArrays: the packed `m_params` bytes of the array are not modelled.
- DynamicArrays: `realloc` is a fresh array holding the old contents.
- DynamicArrays: `sort` on the array is left out.
- DynamicArrays: the sanity-check throws become preconditions.
- BitmapHashCaches: the hash of an M-gram (`get_hash`) is a parameter. The bit macros and `const_expr` are not part of this model, and the bit order within a byte is taken as most significant bit first.
- BitmapHashCaches: the `size_t` overflow of the byte count and a memory factor of 0 are left out.
- BitmapHashCaches: the already-allocated check of `pre_allocate` is modelled as always enabled.

### Word indexes
- `aword_index.hpp` is not part of this model. Its id constants are taken as undefined 0, unknown 1 and first known 2.
- `reserve_mem_unordered_map` is not part of this model: the hash map becomes a Dafny `map`.
- CountingWordIndexes: word weights are integers. The `float` reinterpretation of the stored counts is not modelled.

### Byte- and bit-compressed m-gram ids
- `copy_end_bytes_to_pos`, `copy_end_bits_to_pos` and `log2_32` come from helper headers that are not part of this model.
- ByteMGramIds.TypeLenBytes, ByteMGramIds.MGramId: the `VALUE_LEN_BYTES` macro is not part of this model.
  - The length of the id type field is taken as the byte length of the number of id types, `w^n`.
  - The comment at `inc/ByteMGramId.hpp:126-130` instead computes `ceil(log2(w^n) / 8)`, which is the byte length of `w^n - 1`.
  - The two differ by one byte when `w^n` is a power of 256. For `uint32_t` word ids, level 4 has 256 types, and the model's ids for that level are one byte longer than the comment's.
- Digits.TypeCode, ByteMGramIds.MGramId: the `LEVEL_n_GRAM_TO_TYPE_LEN` tables of `ByteMGramIdTables.hpp` are not part of this model. The id type value is taken as the base-`w` number whose digit `i` is the byte length of word id `i` minus one.
- MGrams.BitLenFits: the bit length of a word id is its count of significant bits, at least 1.
- MGrams.LookUpWords: the word index look-up is a `map` parameter.

### Tries
- `array_utils.hpp` (`my_sort`, `my_bsearch_id`) is not part of this model. The sort and search in `array_utils.dfy` carry the contracts their callers rely on.
- ArrayUtils: the model's sort is stable. `std::sort` leaves the order of equal keys unspecified, so the model fixes one permitted order.
- The trie constructors and the `pre_allocate` code in the `.cpp` files are not part of this model.
- W2CArrayTries.W2CArrayTrie.AddMGram: `get_context_id` of the layered trie base is not part of this model, so the context id of a new M-gram is a parameter.
- W2CArrayTries.W2CArrayTrie.AddMGram: the `register_m_gram_cache` call is left out.
- W2CArrayTries.Offsets: the 32-bit wrap of the context index offsets and the truncation of `TLongId` values to `TShortId` are left out. Ids are unbounded.
- Capacity bookkeeping and float probabilities are left out; payloads are integers that are only stored and copied.

### Translation job
- `trans_task`, the JSON request and response objects, the job lock and cancellation are left out.
- TransJobs.TransJob: the task counters do not wrap at 32 bits.
- TransJobs.TransJob.NotifyTaskDone: the notifier is a flag saying whether it was set; the call itself is not modelled.
- TransJobs.TransJob: a job with no tasks is never notified, as in the source.

### Processor parameters
- `processor_parameters.cpp` is not part of this model. It holds the values of the two placeholder names, taken as `<JOB_UID>` and `<LANGUAGE>`.
- The `replace` helper is not part of this model. It is taken to substitute the first occurrence.
- `language_registry` is not part of this model: a language's uid is its name, not lowercased.
- `operator<<` of the parameters is left out.

## Findings

| source | as written | input that shows it | evidently intended | confidence | as-written member | corrected member |
|---|---|---|---|---|---|---|
| inc/common/utils/file/text_piece_reader.hpp:529-533 | after a run of delimiters that is too short, `find_first_subseq` resumes the search at the last character it checked, so it can skip the start of a longer run | looking for 4 newlines in "\nx\n\n\n\n": the search resumes at index 3 and answers none, although a run of four starts at 2 | the first run of the requested length is found | not executed | TextPieces.SubseqAsWritten, TextPieces.SubseqAsWrittenMissesRun | TextPieces.FindFirstSubseq, TextPieces.FirstRunOfExample, TextPieces.NextCut, TextPieces.FirstCutOffsets, TextPieces.TextPieceReader.GetFirst |
| inc/FixedSizeHashMap.hpp:76-98 | `add_new_element` compares `m_size` with the capacity but never increments it | a map with two buckets: the first two adds fill both, the third probes forever | `m_size` counts the handed-out buckets, and an add on a full map throws | not executed | FixedSizeHashMaps.FixedSizeHashMap.AddNewElementAsWritten, FixedSizeHashMaps.UncountedAddNeverReturns | FixedSizeHashMaps.FixedSizeHashMap.AddNewElement, FixedSizeHashMaps.CountedAddReturns |
| inc/common/utils/containers/ordered_list.hpp:241-248 | `prune` walks until the index equals the size, one node past the tail, and dereferences a null `m_next` | any list of capacity 1 holding two elements | the walk stops at the new last node (index size-1) and drops the tail | not executed | OrderedLists.OrderedList.PruneWalkAsWritten | OrderedLists.OrderedList.Prune, OrderedLists.BoundedKeepsOrder |
| inc/ByteMGramId.hpp:297-317 | the id-type tables are indexed by each raw byte length (1 to w) although each dimension has w entries | a `uint32_t` word id of 2^24 needs 4 bytes, and index 4 is past a dimension of size 4 | the table is indexed by byte length minus one | not executed | ByteMGramIds.TypeTableIndexAsWritten, ByteMGramIds.TypeTableOverrun | ByteMGramIds.TypeTableIndex, ByteMGramIds.TypeTableIndexInBounds |
| src/MGrams.cpp:277-284 | `create_gram_id` allocates the id with `new uint8_t[len]` and writes only the id bits, so the padding bits of the last byte keep whatever the memory held | the 2-gram of word ids [1, 1] created twice into memory with different padding bits gives two ids that `compare` orders apart | the id memory is cleared, so equal m-grams get equal ids | not executed | MGrams.NewGramIdAsWritten, MGrams.FreshPaddingSplitsOneMGram | MGrams.CreateGramId, MGrams.GramIdInjective |
| src/MGrams.cpp:88-94 | the maximum id length is `level * sizeof(TShortId)` bytes, which leaves no room for the id type field | a 2-gram of two word ids 0xFFFFFFFF needs 10 bytes, but 8 are allocated | the maximum length counts the type bits as well | not executed | MGrams.MaxIdLenBytesAsWritten, MGrams.MaxIdLenTooSmall | MGrams.MaxIdLenBytes, MGrams.CreatedIdFits |
