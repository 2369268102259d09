# preprocess_kgptalkie text utilities in Dafny

`preprocess_kgptalkie` is a small Python package of text-preprocessing helpers
for NLP work. This project models its core string utilities from
`preprocess_kgptalkie/utils.py` and proves properties of the model. The
utilities are pure functions on strings, so the model is made of Dafny
datatypes, functions and lemmas. There are no classes and no loops.

The modules follow the structure of the code:

- `Chars` holds the character classes the functions test: Python's
  `str.isspace` whitespace, the regular-expression class `\w`, the digit
  class `[0-9,.]`, and cased letters for `isupper`.
- `Tokens` holds maximal runs of characters of a class (`Runs`). Python's
  argument-less `str.split()` is `Split`, the runs of non-whitespace
  characters. `' '.join` is `Join`. The list comprehension
  `[t for t in ts if p(t)]` is `Filter`. The laws that tie these together
  live here: `Split(Join(ts)) == ts` for tokens, whitespace insensitivity,
  and `Concat(Split(s))` being the non-whitespace characters of `s`.
- `Features` holds the per-string counts: words, characters, stop words,
  hashtags, mentions, digit runs and upper-case words, plus the average word
  length together with its division-by-zero case.
- `Cleaning` holds the rewriting functions: `rt` removal, special-character
  removal, stop-word removal and the collapse of repeated characters.
- `Frequency` holds `_get_value_counts` (a frequency table sorted by
  descending count) and the removal of the most and least frequent words.

## Model

| member | source | states |
|---|---|---|
| Tokens.Split | preprocess_kgptalkie/utils.py:24 | `str.split()` gives whitespace-free, non-empty tokens. The list is empty exactly when the string is all whitespace. |
| Tokens.Runs | preprocess_kgptalkie/utils.py:49 | Every match is a non-empty run of characters of the class. |
| Tokens.RunsEmpty | preprocess_kgptalkie/utils.py:49 | There are no matches exactly when no character of the string is in the class. |
| Tokens.RunsConcat | preprocess_kgptalkie/utils.py:49 | The matches, concatenated in order, are exactly the string's characters of the class. |
| Tokens.RunsCount | preprocess_kgptalkie/utils.py:49-50 | The number of matches is the number of positions where a run of the class starts. |
| Tokens.RunsAppend | preprocess_kgptalkie/utils.py:24 | Splitting a concatenation at a character outside the class gives the runs of each part, appended. |
| Tokens.Join | preprocess_kgptalkie/utils.py:93 | `' '.join` of no tokens is empty. Otherwise its length is the total token length plus one separator fewer than the tokens. |
| Tokens.SplitJoin | preprocess_kgptalkie/utils.py:93 | Splitting a space-join of tokens gives back exactly those tokens. |
| Tokens.JoinSplitIdempotent | preprocess_kgptalkie/utils.py:93 | `' '.join(x.split())` is idempotent. |
| Tokens.SplitAtWhitespace | preprocess_kgptalkie/utils.py:24 | Any non-empty whitespace between two parts splits them apart, whatever its length or kind. |
| Tokens.SplitLeadingWhitespace | preprocess_kgptalkie/utils.py:24 | Leading whitespace does not change `split()`. |
| Tokens.SplitTrailingWhitespace | preprocess_kgptalkie/utils.py:24 | Trailing whitespace does not change `split()`. |
| Tokens.SplitConcat | preprocess_kgptalkie/utils.py:28-29 | `''.join(x.split())` is exactly the non-whitespace characters of `x`, in order. |
| Tokens.Concat | preprocess_kgptalkie/utils.py:29 | `''.join(ts)`: the tokens written one after another. ConcatAppend and SplitConcat give its laws. |
| Tokens.KeepChars | preprocess_kgptalkie/utils.py:92 | The kept characters all satisfy the predicate, and there are no more of them than the input's characters. |
| Tokens.Filter | preprocess_kgptalkie/utils.py:37 | A token is in the filtered list exactly when it is in the input and kept. The list is as long as the input exactly when every token is kept. |
| Tokens.FilterAppend | preprocess_kgptalkie/utils.py:37 | Filtering distributes over concatenation. |
| Tokens.FilterIdempotent | preprocess_kgptalkie/utils.py:104 | Filtering twice with the same test is filtering once. |
| Tokens.JoinSingleSpaced | preprocess_kgptalkie/utils.py:93 | A space-join of tokens has no leading, trailing or doubled space, and contains only the tokens' characters and spaces. |
| Chars.WordCharIsNonSpace | preprocess_kgptalkie/utils.py:92 | A `\w` character is never whitespace. |
| Chars.IsSpace | preprocess_kgptalkie/utils.py:24 | The whitespace of argument-less `split()` and `strip()`: exactly the code points for which Python's `str.isspace()` is true. |
| Chars.IsSpaceExamples | preprocess_kgptalkie/utils.py:24 | Tab, newline, no-break space and ideographic space are whitespace. The zero-width space and letters are not. |
| Chars.IsWordChar | preprocess_kgptalkie/utils.py:92 | The regular-expression class `\w` on ASCII: letters, digits and underscore. |
| Chars.IsDigitClass | preprocess_kgptalkie/utils.py:49 | The class `[0-9,.]`: digits, comma and period. |
| Chars.ClassExamples | preprocess_kgptalkie/utils.py:49 | Letters, digits and `_` are in `\w`, and `#`, `@` and space are not. Digits, `,` and `.` are in `[0-9,.]`, and letters and `-` are not. |
| Chars.IsUpperText | preprocess_kgptalkie/utils.py:53 | `t.isupper()`: at least one cased character, and none of them lower-case. |
| Chars.IsUpperExamples | preprocess_kgptalkie/utils.py:53 | `"123"` is not upper-case text and `"A1"` is, so digits neither count nor spoil the test. `"Ab"` is not. |
| Features.CountWhere | preprocess_kgptalkie/utils.py:37 | `len([t for t in ts if p(t)])` is at most `len(ts)`. It is 0 exactly when no token satisfies `p`, and `len(ts)` exactly when all do. |
| Features.CountWhereComplement | preprocess_kgptalkie/utils.py:37 | The counts of a predicate and of its negation add up to the number of tokens. |
| Features.WordCount | preprocess_kgptalkie/utils.py:23-25 | The word count is the number of positions where a non-whitespace character starts the string or follows whitespace. |
| Features.WordCountExample | preprocess_kgptalkie/utils.py:23-25 | `"hello world foo"` has 3 words. |
| Features.WordCountSpacing | preprocess_kgptalkie/utils.py:23-30 | Replacing one space between two parts by any non-empty whitespace changes neither the word count nor the character count. Each count is the sum of the counts of the parts. |
| Features.WordCountOuterSpacing | preprocess_kgptalkie/utils.py:23-30 | Leading and trailing whitespace change neither the word count nor the character count. |
| Features.CharCount | preprocess_kgptalkie/utils.py:27-30 | The character count is the number of non-whitespace characters, and it is at least the word count. |
| Features.JoinCounts | preprocess_kgptalkie/utils.py:23-30 | For space-joined tokens, the word count is the number of tokens, the character count is their total length, and the hashtag count is the number of tokens starting with `#`. |
| Features.Divide | preprocess_kgptalkie/utils.py:33 | Python's `/` on two counts raises ZeroDivisionError exactly when the divisor is 0. Otherwise the quotient times the divisor is the dividend, and the quotient is at least 1 when the dividend is at least the divisor. |
| Features.AverageWordLength | preprocess_kgptalkie/utils.py:32-34 | The average is a ZeroDivisionError exactly when there are no words. Otherwise average times word count equals character count, and the average is at least 1. |
| Features.StopwordCount | preprocess_kgptalkie/utils.py:36-38 | The count is at most the word count. It is 0 exactly when no token is a stop word, and the word count exactly when every token is one. |
| Features.HashtagCount | preprocess_kgptalkie/utils.py:40-42 | The count is at most the word count. It is 0 exactly when no token starts with `#`, and the word count exactly when every token does. |
| Features.StartsWith | preprocess_kgptalkie/utils.py:41 | `t.startswith(c)` for one character: t is non-empty and its first character is c. |
| Features.MentionCount | preprocess_kgptalkie/utils.py:44-46 | The count is at most the word count. It is 0 exactly when no token starts with `@`, and the word count exactly when every token does. |
| Features.UppercaseCount | preprocess_kgptalkie/utils.py:52-53 | The count is at most the word count. It is 0 exactly when no token is upper-case, and the word count exactly when every token is. |
| Features.DigitRuns | preprocess_kgptalkie/utils.py:49 | Each match of `[0-9,.]+` is a run of digits, commas and periods. The matches, concatenated, are all such characters of the text. |
| Features.DigitCount | preprocess_kgptalkie/utils.py:48-50 | The count is the number of maximal runs of `[0-9,.]`. It is 0 exactly when the text has no digit, comma or period. |
| Features.DigitCountSingle | preprocess_kgptalkie/utils.py:48-50 | A lone digit, comma or period counts as one match, so `"."` and `","` count 1. |
| Cleaning.LeadingSpace | preprocess_kgptalkie/utils.py:89 | The leading whitespace is counted exactly: every counted character is whitespace, and the next character, if any, is not. |
| Cleaning.TrailingSpace | preprocess_kgptalkie/utils.py:89 | The trailing whitespace is counted exactly: every counted character is whitespace, and the character before them, if any, is not. |
| Cleaning.StripLeft | preprocess_kgptalkie/utils.py:89 | `lstrip()` drops exactly the leading whitespace: the result is a suffix of the input, everything before it is whitespace, and it does not start with whitespace. `split()` is unchanged. |
| Cleaning.StripRight | preprocess_kgptalkie/utils.py:89 | `rstrip()` drops exactly the trailing whitespace: the result is a prefix of the input, everything after it is whitespace, and it does not end with whitespace. `split()` is unchanged. |
| Cleaning.Strip | preprocess_kgptalkie/utils.py:89 | `strip()` returns a slice of the input with only whitespace before and after it, and no whitespace at either of its ends. So inner whitespace is kept as it is. `split()` is unchanged. |
| Cleaning.StripKeepsInner | preprocess_kgptalkie/utils.py:89 | Text that neither starts nor ends with whitespace comes back unchanged, inner whitespace included. |
| Cleaning.StripSingleSpaced | preprocess_kgptalkie/utils.py:89 | `strip()` does not change single-spaced text. |
| Cleaning.MarkerAt | preprocess_kgptalkie/utils.py:89 | A match of `\brt\b` starts at a position: `rt` with no `\w` character right before or right after it. |
| Cleaning.InMarker | preprocess_kgptalkie/utils.py:89 | A position belongs to a match of `\brt\b`. |
| Cleaning.KeepUnmarked | preprocess_kgptalkie/utils.py:89 | The reference for the deletion: the characters from a position on that belong to no match, in order. It is no longer than that part of the text. |
| Cleaning.DeleteRt | preprocess_kgptalkie/utils.py:89 | The left-to-right deletion of `\brt\b`, with word boundaries judged on the original text, never lengthens the text. |
| Cleaning.DeleteRtFrom | preprocess_kgptalkie/utils.py:89 | Scanning from any position outside a match, the deletion keeps exactly the characters that belong to no match. |
| Cleaning.DeleteRtUnmarked | preprocess_kgptalkie/utils.py:89 | For every text, `re.sub(r'\brt\b', '', x)` is the text with exactly the characters of the matches removed. |
| Cleaning.DeleteRtNoR | preprocess_kgptalkie/utils.py:89 | Text without an `r` is unchanged by the deletion. |
| Cleaning.DeleteRtExamples | preprocess_kgptalkie/utils.py:89 | `"rt @a: hi"` becomes `" @a: hi"`, and `"art"` is unchanged because its `rt` follows a word character. |
| Cleaning.RemoveRt | preprocess_kgptalkie/utils.py:88-89 | For every text, the result is `strip()` of the text with exactly the characters of the `\brt\b` matches removed. It starts and ends with non-whitespace and is no longer than the input. |
| Cleaning.DeleteRtToken | preprocess_kgptalkie/utils.py:89 | At a word boundary, a word token is deleted exactly when it is `rt`. |
| Cleaning.DeleteRtJoin | preprocess_kgptalkie/utils.py:89 | In space-joined word tokens, the deletion removes exactly the `rt` tokens and keeps the others in order. |
| Cleaning.RemoveRtTokens | preprocess_kgptalkie/utils.py:88-89 | For space-joined word tokens, the words of `_remove_rt` are the input's tokens with every `rt` dropped. |
| Cleaning.RemoveRtNoMarker | preprocess_kgptalkie/utils.py:88-89 | Text of word tokens with no `rt` token comes back unchanged. |
| Cleaning.RemoveLeadingRt | preprocess_kgptalkie/utils.py:88-89 | A leading `rt ` before text without `rt` is removed, and the rest comes back unchanged. |
| Cleaning.RemoveSpecialChars | preprocess_kgptalkie/utils.py:91-94 | The result holds only `\w` characters and spaces, and it is single-spaced. Its words are those of the input with every other character deleted. |
| Cleaning.RemoveSpecialCharsIdempotent | preprocess_kgptalkie/utils.py:91-94 | Removing special characters twice gives the same result as removing them once. |
| Cleaning.FilterTokens | preprocess_kgptalkie/utils.py:104 | Filtering tokens leaves tokens. |
| Cleaning.KeepTokens | preprocess_kgptalkie/utils.py:104 | `' '.join([t for t in x.split() if keep(t)])` has exactly the kept tokens of `x`, in order, and is single-spaced. |
| Cleaning.KeepTokensIdempotent | preprocess_kgptalkie/utils.py:104 | Keeping tokens twice with the same test is keeping them once. |
| Cleaning.RemoveStopwords | preprocess_kgptalkie/utils.py:103-104 | The words of the result are the input's words that are not stop words, in order. A word occurs in the result exactly when it occurs in the input and is not a stop word. There are no more words than before, and the result is single-spaced. |
| Cleaning.RunLength | preprocess_kgptalkie/utils.py:136 | The first run of equal characters is non-empty and maximal: the next character, if any, differs. |
| Cleaning.RunSplit | preprocess_kgptalkie/utils.py:136 | A text is its first run followed by the rest. |
| Cleaning.RemoveDupsChar | preprocess_kgptalkie/utils.py:135-137 | The result is no longer than the input and starts with the input's first character. |
| Cleaning.RemoveDupsCharNoTriple | preprocess_kgptalkie/utils.py:135-137 | The result has no character other than newline three or more times in a row. |
| Cleaning.RemoveDupsCharFixes | preprocess_kgptalkie/utils.py:135-137 | Text with no such triple comes back unchanged. |
| Cleaning.RemoveDupsCharIdempotent | preprocess_kgptalkie/utils.py:135-137 | Collapsing repeats twice gives the same result as collapsing them once. |
| Cleaning.RunLengths | preprocess_kgptalkie/utils.py:136 | The run-length encoding has positive counts, and neighbouring runs have different characters. |
| Cleaning.ExpandRunLengths | preprocess_kgptalkie/utils.py:136 | Expanding the run-length encoding gives back the text. |
| Cleaning.ShrinkRuns | preprocess_kgptalkie/utils.py:136 | Each run is shrunk independently. |
| Cleaning.RemoveDupsCharByRuns | preprocess_kgptalkie/utils.py:135-137 | The result is the text's runs with every run of three or more non-newline characters shrunk to one, and all other runs kept. |
| Cleaning.NewlinesKept | preprocess_kgptalkie/utils.py:136 | A run of newlines is never collapsed, because `.` does not match a newline. |
| Cleaning.PairStep | preprocess_kgptalkie/utils.py:136 | A run of exactly two equal characters is kept. |
| Cleaning.RemoveDupsCharRun | preprocess_kgptalkie/utils.py:136 | A run of three or more equal non-newline characters becomes one character. |
| Cleaning.RemoveDupsCharExample | preprocess_kgptalkie/utils.py:135-137 | `"soooo coool"` becomes `"so col"`. |
| Frequency.LookupPositive | preprocess_kgptalkie/utils.py:122 | In a table of positive counts, a word has a positive count exactly when it is in the table. |
| Frequency.KeySet | preprocess_kgptalkie/utils.py:127 | The index of a frequency table, which `t not in fn` tests: the set of its words. |
| Frequency.BumpCounts | preprocess_kgptalkie/utils.py:122 | Counting one more occurrence of a word adds it to the keys and raises its count, and that of the total, by one. Every other count stays the same. |
| Frequency.BumpDistinct | preprocess_kgptalkie/utils.py:122 | Counting one more occurrence keeps the table free of duplicate words. |
| Frequency.Tally | preprocess_kgptalkie/utils.py:122 | Counting the tokens in order, one occurrence at a time. TallySpec states what the result holds. |
| Frequency.TallySpec | preprocess_kgptalkie/utils.py:122 | The tally has distinct words and positive counts. Each word's count is its number of occurrences, the words are exactly those that occur, and the counts add up to the number of tokens. |
| Frequency.Insert | preprocess_kgptalkie/utils.py:122 | Inserting an entry adds exactly that entry. |
| Frequency.InsertSorted | preprocess_kgptalkie/utils.py:122 | Inserting into a table sorted by descending count keeps it sorted. |
| Frequency.SortByCount | preprocess_kgptalkie/utils.py:122 | Sorting by count permutes the entries. |
| Frequency.SortByCountSorted | preprocess_kgptalkie/utils.py:122 | The sorted table is in descending order of count. |
| Frequency.SortByCountTotals | preprocess_kgptalkie/utils.py:122 | Sorting keeps the set of words, the total and positivity. |
| Frequency.SortByCountDistinct | preprocess_kgptalkie/utils.py:122 | Sorting keeps the words distinct and every word's count. |
| Frequency.JoinRowsTokens | preprocess_kgptalkie/utils.py:120-121 | Splitting the space-joined column gives each row's tokens, in row order. |
| Frequency.ValueCounts | preprocess_kgptalkie/utils.py:119-123 | `value_counts` is in descending order of count, with distinct words and positive counts. Each word's count is its number of occurrences in the column. The words are exactly the column's tokens, and the counts sum to the number of tokens. |
| Frequency.Head | preprocess_kgptalkie/utils.py:126 | `freq[:n]` is a prefix of the table: the first `n` entries for `n >= 0`, and all but the last `-n` for `n < 0`. |
| Frequency.Tail | preprocess_kgptalkie/utils.py:131 | `freq.tail(n)` is a suffix of the table: the last `n` entries for `n >= 0`, and all but the first `-n` for `n < 0`. |
| Frequency.HeadTail | preprocess_kgptalkie/utils.py:126-131 | For `0 <= n <= len(freq)`, `freq[:n]` followed by `freq.tail(len(freq) - n)` is the whole table. |
| Frequency.HeadMostFrequent | preprocess_kgptalkie/utils.py:126 | In a table sorted by count, no entry of `freq[:n]` is less frequent than any entry after it. |
| Frequency.RemoveCommonWords | preprocess_kgptalkie/utils.py:125-128 | The result keeps in order exactly the words of `x` that are not among the `n` most frequent, and it is single-spaced. |
| Frequency.RemoveRareWords | preprocess_kgptalkie/utils.py:130-133 | The result keeps in order exactly the words of `x` that are not among the `n` least frequent, and it is single-spaced. |
| Frequency.HeadBound | preprocess_kgptalkie/utils.py:126 | A word of the table outside `freq[:n]` occurs no more often than any word in it. |
| Frequency.TailBound | preprocess_kgptalkie/utils.py:131 | A word of the table outside `freq.tail(n)` occurs no less often than any word in it. |
| Frequency.CommonWordsAreMostFrequent | preprocess_kgptalkie/utils.py:125-128 | A counted word that survives `_remove_common_words` occurs no more often than any removed common word. |
| Frequency.RareWordsAreLeastFrequent | preprocess_kgptalkie/utils.py:130-133 | A counted word that survives `_remove_rarewords` occurs no less often than any removed rare word. |

## Left out

- `Chars.IsWordChar` models `\w` on ASCII only: letters, digits and `_`. Python's `re` also counts Unicode letters and digits, and `\b` in `_remove_rt` follows the same class.
- `Chars.IsUpperText` models `str.isupper` with ASCII cased letters. Python consults the Unicode case tables.
- `Features.WordCount` works on strings. The `str(x)` coercion of non-string values in `_get_wordcounts` is not modelled.
- `Features.AverageWordLength` gives an exact rational quotient. Python's `/` gives a rounded binary float.
- `Features.StopwordCount` and `Cleaning.RemoveStopwords` take the stop-word set as a parameter. spaCy's `STOP_WORDS` list is not part of this model.
- `Cleaning.RemoveRtTokens`, `Cleaning.DeleteRtJoin`, `Cleaning.RemoveRtNoMarker` and `Cleaning.RemoveLeadingRt` state their token-level consequences only for text made of `\w` tokens joined by single spaces. The character-level law, `Cleaning.DeleteRtUnmarked`, holds for every text.
- `Cleaning.RemoveDupsChar` is proved against the regular expression's meaning on runs. It is not proved against a model of backtracking regular-expression matching.
- `Frequency.ValueCounts` breaks ties between equal counts by first occurrence, as a stable sort would. pandas does not promise any tie order, and the model leaves that order unproved.
- `Frequency.ValueCounts` takes the DataFrame column as a sequence of strings. pandas' hashing, indexing and the dtype of the result are not modelled.
- `Frequency.RemoveCommonWords` and `Frequency.RemoveRareWords` test membership in the words of the selected entries. That is pandas' `in` on a Series, which tests the index.
- The defaults `n=20` of `_remove_common_words` and `_remove_rarewords` are not modelled. The model always takes `n` as an argument.
- `_cont_exp`, `_get_emails`, `_remove_emails`, `_get_urls`, `_remove_urls`, `_remove_html_tags`, `_remove_accented_chars`, `_make_base`, `_spelling_correction`, `_get_basic_features` and `_get_ngram` are not modelled. They depend on files, BeautifulSoup, Unicode normalisation, spaCy, TextBlob or scikit-learn.
- The one-line wrappers in `preprocess_kgptalkie/__init__.py` and `setup.py` are not part of this model.
- Reading the abbreviations file, loading the spaCy model and all other I/O are not modelled. The model has no files and no mutable state.
