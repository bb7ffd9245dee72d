# Pocketsphinx training for Rhasspy, modelled in Dafny

This project models the training module of `rhasspyasr_pocketsphinx`.
From the n-gram counts of a set of intents it produces two things:

- a trigram language model;
- a CMU-format pronunciation dictionary for the model's vocabulary.

Training runs these steps in order:

1. It writes the counts file, one `word word ...<TAB> count` line per n-gram, with the optional dictionary word transform applied to every word.
2. It runs the `estimate-ngram` estimator with order 3.
3. It reads the estimator's vocabulary listing. It strips each line and drops reserved symbols such as `<s>`.
4. It stops if the vocabulary is empty.
5. It looks every vocabulary word up in the pronunciation table. For each word it writes one `word PH ...`, `word(2) PH ...`, … line per variant. It collects the words it cannot resolve.
6. If a missing-words path is configured, it opens that file.
7. If some words are missing, either:
   - it raises the missing-pronunciations error, when no g2p model is configured; or
   - it asks the `phonetisaurus-apply` g2p tool for one guess per word. It parses the tool's output and appends one line per guess to the dictionary, and to the missing-words file when there is one.

The project also models `read_dict`, the CMU dictionary reader. The reader merges a dictionary file, line by line, into a map it is given or into a fresh one. A head such as `word(2)` counts as the base word `word`.

Modules, one file each:

| file | module | what it holds |
|---|---|---|
| `results.dfy` | `Results` | `Option`, `Result` |
| `text.dfy` | `Text` | See the list below. |
| `dict_reader.dfy` | `DictReader` | `read_dict`: the mutable `PronunciationDict` and its merge loop |
| `count_file.dfy` | `CountFile` | The counts-file writer, and how the estimator parses a counts line |
| `vocabulary.dfy` | `Vocabulary` | The vocabulary filter |
| `resolver.dfy` | `Resolver` | The lookup loop and the CMU-line writer, plus the read-back of the written lines with `DictReader` |
| `g2p.dfy` | `G2p` | `guess_pronunciations`: the word-list writer, the tool call and the output parser |
| `training.dfy` | `Training` | `train` itself, its error cases and its end-to-end properties |

`Text` models the Python string operations the source uses:

- `str.isspace` and `strip()` use Python's own whitespace set.
- `str.split()` is `Fields`.
- `re.split(r"[ \t]+", …)` is `SplitSpaceTab`.
- `" ".join` is `Join`.
- `str(int)` is `IntToDecimal`.
- It also holds a generic element-wise `Mapped`.

The external programs are parameters of the model, not code:

- The estimator is a function from the n-gram order and the counts-file lines to an exit status, a language model and a vocabulary listing.
- The g2p tool is a function from the model path, the word-list lines and the `--nbest` argument to an exit status and output lines.

A non-zero exit status is the `CalledProcessError` case:

- `EstimationFailure` for the estimator.
- `G2PInvocationFailure` for the g2p tool.

Python iterates a `set` in an unspecified order. Each method that iterates one therefore picks elements with `:|`. It also returns the order it used as a ghost `seq`, and its contract holds for that order. `Enumerates(order, s)` says that `order` lists every element of `s` exactly once.

The end-to-end contract is `Training.Train`. Its outcome and its missing-words report equal the function `Training.Expected` of the configuration and of those two orders. The lemmas in `training.dfy` state the documented behaviour in terms of `Expected`:

- when each error is raised;
- that g2p is not consulted when nothing is missing;
- that the report holds exactly the appended guess lines;
- what the dictionary reader reads back from the trained dictionary.

The model follows the code at these points, where it does something one might not expect:

- An empty vocabulary is an `assert` in the code, not a dedicated error type. The model reports `EmptyVocabulary`. It is raised only after the estimator succeeded.
- A vocabulary line is stripped before the check for a leading `<`. A blank line therefore adds the empty word (`Vocabulary.BlankLineAddsEmptyWord`).
- A word is missing if the table has no entry for it, or if its entry is an empty list (`if not word_phonemes`).
- A counts line is the words, a tab, a space and the count: `print("\t", count)` puts a separator between its two arguments.
- The missing-words file is opened before the missing-pronunciations check. On that error, and when the g2p tool fails, the report exists and is empty.
- The dictionary reader keys a line on the text of its first token before the first `(`. A line whose first token starts with `(` is therefore stored under the empty word (`DictReader.BaseWord`).
- A dictionary line that holds only a word gives that word an empty pronunciation. Likewise, a table entry with no phonemes is written as the word and a trailing space, and reads back as an empty pronunciation (`Resolver.LineRoundTrip`).

## Model

| member | source | states |
|---|---|---|
| Text.Strip | rhasspyasr_pocketsphinx/train.py:232 | `str.strip()` never lengthens a line; its result has no Python whitespace at either end; a line already trimmed is unchanged |
| Text.StripSlice | rhasspyasr_pocketsphinx/train.py:232 | `str.strip()` of a line is a slice `s[i..j]` of it where everything before `i` and everything from `j` on is Python whitespace: only leading and trailing whitespace is removed |
| Text.SplitSpaceTabJoin | rhasspyasr_pocketsphinx/train.py:238 | `re.split(r"[ \t]+")` gives back exactly the tokens that `" ".join` put together, provided there is at least one token and no token is empty or holds a space or a tab |
| Text.FieldsJoin | rhasspyasr_pocketsphinx/train.py:216 | `str.split()` gives back exactly the tokens that `" ".join` put together, none included, provided no token is empty or holds Python whitespace |
| Text.IntRoundTrip | rhasspyasr_pocketsphinx/train.py:71 | the decimal text that `print` writes for a count parses back to that count, negative counts included |
| DictReader.BaseWord | rhasspyasr_pocketsphinx/train.py:240 | `split("(")[0]` is a prefix of the head token without `(`; it is shorter than the head only when a `(` follows it |
| DictReader.PronunciationDict.constructor | rhasspyasr_pocketsphinx/train.py:228-229 | a dictionary created for a call without `word_dict` starts empty |
| DictReader.ReadDict | rhasspyasr_pocketsphinx/train.py:223-249 | returns the caller's dictionary object itself when one is given, a fresh one otherwise; its new contents are its old contents with every line of the file merged in, in file order |
| DictReader.ReadInto | rhasspyasr_pocketsphinx/train.py:231-245 | the loop leaves the dictionary equal to the reader's specification `ReadLines` applied to the old contents and the file |
| DictReader.ReadLine | rhasspyasr_pocketsphinx/train.py:232-245 | a blank line changes nothing; any other line appends its pronunciation to its base word's list, or creates a one-element list when the word is new |
| DictReader.ReadLinesAt | rhasspyasr_pocketsphinx/train.py:242-245 | after reading, a word is present exactly when it was present before or some line names it; its list is the old list followed by the pronunciations of the lines naming it, in line order |
| DictReader.ReadLinesNewKeys | rhasspyasr_pocketsphinx/train.py:240-245 | a key the file adds never contains `(` and holds one pronunciation per line naming it, at least one |
| DictReader.ReadLinesAppend | rhasspyasr_pocketsphinx/train.py:231 | reading two files one after the other into the same map is reading their concatenation |
| DictReader.EntryCountNonBlank | rhasspyasr_pocketsphinx/train.py:232-234 | line k produces no entry if and only if it is blank, so there are as many entries as non-blank lines |
| DictReader.ReadLinesCount | rhasspyasr_pocketsphinx/train.py:231-245 | the total number of pronunciations grows by exactly the number of non-blank lines; nothing is lost or overwritten |
| CountFile.WriteIntentCounts | rhasspyasr_pocketsphinx/train.py:65-71 | the lines written for one intent are its n-gram counts formatted in order, with the words transformed when a transform is given |
| CountFile.WriteCountFile | rhasspyasr_pocketsphinx/train.py:59-71 | the counts file is the formatted n-gram counts of every intent, intent by intent |
| CountFile.CountLineRoundTrip | rhasspyasr_pocketsphinx/train.py:69-71 | a counts line parses back, at its first tab, to its n-gram and count when the words are non-empty and free of spaces and tabs |
| CountFile.CountFileRoundTrip | rhasspyasr_pocketsphinx/train.py:64-71 | the counts file has one line per n-gram over all intents, and line k parses back to the k-th transformed n-gram and its count |
| Vocabulary.ExtractVocabulary | rhasspyasr_pocketsphinx/train.py:93-98 | the loop collects exactly the vocabulary the specification `VocabularyOf` gives for the listing |
| Vocabulary.VocabularyMembership | rhasspyasr_pocketsphinx/train.py:95-98 | a word is in the vocabulary if and only if some listed line strips to it and it does not start with `<` |
| Vocabulary.VocabularyWordsTrimmed | rhasspyasr_pocketsphinx/train.py:96-98 | every vocabulary word is stripped and does not start with `<` |
| Vocabulary.BlankLineAddsEmptyWord | rhasspyasr_pocketsphinx/train.py:96-98 | a blank listed line puts the empty word into the vocabulary |
| Vocabulary.VocabularyEmpty | rhasspyasr_pocketsphinx/train.py:100 | the vocabulary is empty if and only if every listed line strips to a reserved symbol |
| Resolver.WriteEntry | rhasspyasr_pocketsphinx/train.py:118-125 | one line per variant in order: the bare word for the first variant, `word(i+1)` for the others, then the stripped joined phonemes |
| Resolver.Resolve | rhasspyasr_pocketsphinx/train.py:105-125 | visits every vocabulary word once; writes the lines of exactly the words with a non-empty list, in visiting order; the missing set is exactly the vocabulary words with no entry or an empty list |
| Resolver.HeadShape | rhasspyasr_pocketsphinx/train.py:120-125 | a variant's head is one whitespace-free token whose base word is the word itself |
| Resolver.LineRoundTrip | rhasspyasr_pocketsphinx/train.py:119-125 | a written `head phonemes` line reads back as the head's base word with exactly those phonemes, the empty pronunciation included |
| Resolver.VariantLineRoundTrip | rhasspyasr_pocketsphinx/train.py:117-125 | every variant line, numbered or not, reads back as the word and that variant |
| Resolver.EntryLinesRoundTrip | rhasspyasr_pocketsphinx/train.py:117-125 | reading a word's lines appends all its variants, in order, to that word's list |
| Resolver.ResolvedLinesRoundTrip | rhasspyasr_pocketsphinx/train.py:106-125 | reading the written dictionary gives back exactly the visited words that have pronunciations, each with its full variant list |
| Resolver.DictionaryRoundTrip | rhasspyasr_pocketsphinx/train.py:109-125 | the words read back are exactly the vocabulary minus the missing words, and each has its table pronunciations |
| G2p.WriteWordList | rhasspyasr_pocketsphinx/train.py:187-190 | the word list has one line per word, the g2p transform applied, in the set's visiting order |
| G2p.ParseGuessLine | rhasspyasr_pocketsphinx/train.py:213-217 | a line yields no guess if and only if it is blank |
| G2p.ParseG2pOutput | rhasspyasr_pocketsphinx/train.py:213-217 | the loop yields exactly the guesses the specification `ParseGuesses` gives for the output |
| G2p.GuessPronunciations | rhasspyasr_pocketsphinx/train.py:178-217 | the tool is called with the model, the word list for the visiting order and `str(num_guesses)`; a non-zero exit status fails with that status; otherwise the result is the parsed output |
| G2p.ParseGuessLineOk | rhasspyasr_pocketsphinx/train.py:214-217 | a guess from a non-blank line has one whitespace-free word and whitespace-free phonemes |
| G2p.ParseGuessesCount | rhasspyasr_pocketsphinx/train.py:213-217 | the output yields exactly one guess per non-blank line |
| G2p.ParseGuessesOk | rhasspyasr_pocketsphinx/train.py:213-217 | every guess has one whitespace-free word and whitespace-free phonemes |
| G2p.ParseGuessesAppend | rhasspyasr_pocketsphinx/train.py:213-217 | guesses keep output order: two stretches of output give their guesses concatenated |
| Training.AppendGuess | rhasspyasr_pocketsphinx/train.py:149-153 | one guess adds its line to the dictionary, and to the report only when there is one |
| Training.AppendGuesses | rhasspyasr_pocketsphinx/train.py:148-153 | the dictionary and the report, if any, each gain exactly the guess lines, in guess order |
| Training.ListOf | rhasspyasr_pocketsphinx/train.py:135 | `list(missing_words)` names every missing word exactly once |
| Training.WriteDictionary | rhasspyasr_pocketsphinx/train.py:103-158 | the dictionary stage's outcome and report are `DictionaryStage` of the orders it visited: success with the resolved lines; or the missing-words error with the missing words; or the g2p failure; or success with the guess lines appended |
| Training.Train | rhasspyasr_pocketsphinx/train.py:34-172 | training's outcome and report are `Expected` of the configuration and the set orders: estimator failure, empty vocabulary, or the dictionary stage |
| Training.EmptyVocabularyOutcome | rhasspyasr_pocketsphinx/train.py:93-100 | training stops on an empty vocabulary if and only if the estimator succeeded and every listed line strips to a reserved symbol |
| Training.MissingWordsOutcome | rhasspyasr_pocketsphinx/train.py:132-135 | the missing-pronunciations error is raised if and only if the estimator succeeded, there is no g2p model and some vocabulary word is unresolved; its list names each unresolved vocabulary word exactly once and nothing else |
| Training.NoGuessingWhenNothingMissing | rhasspyasr_pocketsphinx/train.py:132-144 | when every vocabulary word resolves, training succeeds with the resolved lines alone, and the g2p model and tool make no difference |
| Training.ReportIsAppendedGuesses | rhasspyasr_pocketsphinx/train.py:146-158 | on success the dictionary is the resolved lines followed by the guess lines; the report holds exactly those guess lines when a path was given and is absent otherwise; there is one guess per non-blank g2p output line |
| Training.GuessLineRoundTrip | rhasspyasr_pocketsphinx/train.py:149-150 | the dictionary reader reads a guess line back as the guessed word's base and its phonemes |
| Training.GuessLineParsesBack | rhasspyasr_pocketsphinx/train.py:149-150 | the g2p output parser reads a written guess line back as the same guess |
| Training.ParseGuessLines | rhasspyasr_pocketsphinx/train.py:148-150 | the appended guess lines parse, line by line, to the guesses' entries |
| Training.DictionaryReadBack | rhasspyasr_pocketsphinx/train.py:103-164 | reading the trained dictionary back: a word is present if and only if it is a resolved vocabulary word or the base of a guessed word; it holds its table pronunciations followed by its guesses in output order |

## Left out

- Several things are left out because they move bytes around without changing what is computed:
  - the intent graph: `rhasspynlu.json_to_graph` and `get_intent_ngram_counts`, including `balance_counts`; the model starts from the per-intent n-gram counts, in the order the intents' tables yield them;
  - the temporary files, `seek`, `shutil.which`, the tool's path and command-line flags other than the order and `--nbest`;
  - copying to `dictionary_path` and `language_model_path`;
  - logging.
  The files are modelled as sequences of lines, the outputs as returned values.
- Line 62 names `language_model`, which is not bound in `train`, so the code as written raises `NameError` before it writes any count. The model writes the counts file to an in-memory sequence, as the surrounding code evidently intends, and does not model the path it would have.
- Tool output is given as a sequence of lines, so `splitlines()` and lines holding a line break are not modelled. Subprocess errors other than a non-zero exit status are not modelled, for example a missing executable.
- `MissingWordPronunciationsException.__str__` is message text only. The error carries the word list.
- The `except` branch of `read_dict` (lines 246-247) cannot be reached: after `strip()` a non-blank line always has a first token. The model has no such branch.
- `guess_pronunciations` is a generator that is consumed at once, so the model returns the whole guess sequence.
- Python lists are mutable, and the caller's variant lists stay shared with the map. The model holds values, so that aliasing is not captured.
- The missing-words file is not closed when an error is raised between its opening and line 158. The model reports its contents as they stand.
- Resolver.LineRoundTrip, Resolver.ResolvedLinesRoundTrip, Resolver.DictionaryRoundTrip: these hold only for words and phonemes free of Python whitespace, and for table words free of `(`. Other inputs are not round-tripped, because the reader would split or truncate them, as the code does.
- CountFile.CountFileRoundTrip: this holds only for transformed words that are non-empty and free of spaces and tabs. It describes how the estimator would split the line. The estimator itself is not part of this model.
- Training.DictionaryReadBack: this needs the same whitespace and `(` conditions for the table, and for the guesses. The guesses meet them by construction.
