# multitask-fasttext vocabulary engine and trainer bookkeeping, in Dafny

This project models the core of multitask-fasttext. That program trains word, subword and phrase embeddings with skip-gram and reuses them for classification (`cls`) and pairwise scoring (`pair`) tasks. The model covers the parts of it that are integer, index and string logic:

- **Lexicon** (`utils/hashtable.cc`). It has an open-addressing symbol table with a 32-bit FNV-style hash over sign-extended bytes, linear probing, and frequency accumulation that is propagated to subword rows. Once occupancy passes 70% it rebuilds itself, raising its floor each time. It also has:
  - the UTF-8-aware subword decomposition;
  - the rebuild (filter, stable sort by frequency, re-index, re-resolve subwords);
  - the frequency-discard passes, table combination and phrase filtering;
  - the line-oriented Save/Load encoding.

  The table is specified as values in `HashTableSpec`. The class `HashTable.HashTable` keeps the row vector and the counters in fields and the index in an array. Every one of its methods is proved to leave `State()` equal to the specification function applied to the old state.
- **String and token helpers** (`utils/basicutil.cc`, `utils/textutil.cc`, `utils/vectorutil.h`): trimming, lower-casing, splitting, prefixes, whitespace tokenisation, n-gram joining, UTF-8 character counting, and the `|`-joined integer vectors of the Lexicon file. Strings are byte sequences (`seq<bv8>`).
- **Matrices** (`utils/matrixutil.cc`, `layers/inputlayer.cc`, `layers/outputlayer.cc`). These are row-major arrays over an idealised `real`, with the frame conditions of every row update. They also cover:
  - the id set an input text resolves to;
  - the averaging divisor of the pooled read;
  - the nearest-neighbour candidates;
  - zero initialisation;
  - the text encoding with its row and column checks.
- **Trainer** (`model.cc`):
  - the 64-bit linear congruential generator;
  - the cyclic negative-sampling cursor with its retry bound;
  - what the negative tables hold;
  - the n-gram and context-window selection of the skip-gram update;
  - the guards and loss-event counts of the three updates;
  - the two classifier predictions;
  - the bucket arithmetic of the sigmoid and log tables.
- **Coordinator bookkeeping** (`embedding.cc`):
  - how training and evaluation lines are classified;
  - the tag and count maps, and the class counts derived from them;
  - the evaluation examples and their (wrong, right) tallies;
  - how Predict rewrites an output line.
- **Configuration** (`utils/argsconf.cc`): the `key=value` reading with its typed fields and defaults, the lookups of free-form keys, and the minimum checks.

Where the source updates state in place, the model does the same. The Lexicon, the input and output layers, a trainer, the coordinator and the configuration are classes whose methods carry `modifies` clauses. Each method's `ensures` ties its new state to a specification function, and the properties are proved as lemmas about those functions. Pure code becomes functions and lemmas.

## Model

| member | source | states |
|---|---|---|
| Bytes.LowerByte | utils/basicutil.cc:44-48 | C-locale `tolower` on an unsigned char: 'A'..'Z' move up by 0x20, every other byte is kept |
| Bytes.ParseIntOfIntToString | utils/basicutil.cc:13-16 | `atoi` (StringToNumber for integers) reads back the `to_string` rendering of any integer, whatever non-digit byte follows it |
| Bytes.ParseIntRoundTrip | utils/basicutil.cc:13-16 | `atoi(to_string(n)) == n` for every integer |
| Bytes.ParseIntOfIntegralFloat | utils/basicutil.cc:13-16 | `atoi` of the six-decimal `to_string` of an integral float gives the integer back |
| Bytes.ParseRealOfIntegralFloat | utils/basicutil.cc:9-12 | `atof` (StringToNumber for floats) reads back the six-decimal rendering of a non-negative integral float |
| Bytes.IntToStringBytes | utils/basicutil.cc:13-16 | a rendered integer is non-empty and holds only digits and a leading minus |
| Bytes.NatToStringDigits | utils/basicutil.cc:13-16 | the rendering of a natural number is a non-empty digit string whose decimal value is the number |
| BasicUtil.Trimmed | utils/basicutil.cc:38-42 | the trimmed copy is empty iff the input is all ' ', '\t', '\n'; it starts and ends with none of them; it is the input with an all-space prefix and an all-space suffix removed |
| BasicUtil.StringTrim | utils/basicutil.cc:21-36 | the two index walks of the pointer overload compute exactly the trimmed copy |
| BasicUtil.TrimmedShorter | utils/basicutil.cc:24-34 | a non-empty string with a space byte at either end gets strictly shorter |
| BasicUtil.TrimmedOfClean | utils/basicutil.cc:21-36 | a string with no space byte at either end is left as it is |
| BasicUtil.TrimmedIdempotent | utils/basicutil.cc:38-42 | trimming twice is trimming once |
| BasicUtil.Lowered | utils/basicutil.cc:44-48 | the length is kept and each byte goes through C-locale `tolower` |
| BasicUtil.StringToLower | utils/basicutil.cc:44-48 | the loop leaves the length and lowers every byte, and nothing else |
| BasicUtil.TrimmedAll | utils/basicutil.cc:94-98 | the length is kept and every element is trimmed |
| BasicUtil.TrimVector | utils/basicutil.cc:94-98 | the in-place loop yields the vector of trimmed elements, same length |
| BasicUtil.ReadExtent | utils/basicutil.cc:64-67 | the split loop reads up to the first NUL (end of `c_str()`) or 0xFF byte (equal to EOF as a `char`), or to the end |
| BasicUtil.StringSplit | utils/basicutil.cc:50-77 | a one-byte separator is required; `""` gives `[""]`, the separator alone `["",""]`, anything else the fields cut at every separator up to the read extent |
| BasicUtil.SplitPlain | utils/basicutil.cc:60-76 | without NUL or 0xFF bytes the split covers the whole input |
| BasicUtil.SplitFieldsCount | utils/basicutil.cc:67-75 | the field count is the number of separators plus one |
| BasicUtil.SplitFieldsNoSep | utils/basicutil.cc:67-75 | no field contains the separator |
| BasicUtil.JoinSplitFields | utils/basicutil.cc:67-75 | joining the fields with the separator reproduces the input |
| BasicUtil.SplitFieldsOfJoin | utils/basicutil.cc:67-75 | splitting a join of separator-free fields gives the fields back |
| BasicUtil.StartWithIsPrefix | utils/basicutil.cc:100-109 | StartWith holds iff the prefix is non-empty and the source begins with it (empty source or longer prefix: false) |
| TextUtil.GetSegedWordList | utils/textutil.cc:9-18 | the tokens are the space split with the empty strings erased, in order |
| TextUtil.SegedWordsAreTokens | utils/textutil.cc:9-18 | no token is empty and none contains a space |
| TextUtil.SegedWordsCoverText | utils/textutil.cc:9-18 | the tokens concatenated give the text with its spaces removed (text without NUL/0xFF bytes) |
| TextUtil.GetNgramWord | utils/textutil.cc:20-38 | with equal lengths and `start <= end < size`: `""` when a position after `start` has a negative row, otherwise `words[start..end]` joined with '_'; the row of `start` is not checked |
| TextUtil.GetNgramWordList | utils/textutil.cc:40-54 | the nested loops emit, for each start `i` in order, the joins of words `i..j` for `j` from `i+1` to `min(size-1, i+ngram-1)`; nothing for `ngram <= 1` |
| TextUtil.NgramListLength | utils/textutil.cc:44-53 | the list holds Σ min(size-1-i, ngram-1) entries, and is empty for `ngram <= 1` |
| TextUtil.NgramListShape | utils/textutil.cc:47-53 | every entry joins between two and `ngram` consecutive words: no unigrams |
| TextUtil.GetNgramWordListOfText | utils/textutil.cc:56-69 | empty when `ngram <= 1` or the space split has at most one part; otherwise the n-grams of the split, empty tokens kept |
| TextUtil.GetWordSize | utils/textutil.cc:71-95 | the size counts each maximal ASCII run once and each UTF-8 lead byte once; 0 for `""` with the flag untouched; otherwise the flag says there is no lead byte |
| TextUtil.WordSizeOfAscii | utils/textutil.cc:78-94 | a non-empty all-ASCII word has size 1 and no lead byte |
| VectorUtil.JoinVector | utils/vectorutil.h:31-40 | `""` for an empty vector; otherwise the rendered elements separated by the connector, with no leading connector |
| VectorUtil.PrefixedIsJoin | utils/vectorutil.h:33-38 | the accumulated `connector + to_string(x)` string is one connector followed by the join, so dropping the first connector gives the join |
| VectorUtil.JoinWithLength | utils/vectorutil.h:33-38 | the join is as long as the rendered elements plus (n-1) connectors |
| VectorUtil.ParseVec | utils/vectorutil.h:19-29 | exactly one number per string, read with `atoi`, in order |
| VectorUtil.Rendered | utils/vectorutil.h:34 | one rendering per element |
| VectorUtil.RenderedBytes | utils/vectorutil.h:34 | a rendered integer holds neither '\|' nor a NUL/0xFF byte |
| VectorUtil.SubwordEncodingRoundTrip | utils/vectorutil.h:19-40 | for a non-empty int vector, ParseVec(StringSplit(JoinVector(v, "\|"), "\|")) == v |
| MatrixUtil.Cell | utils/matrixutil.cc:30 | cell (i, j) with `j < col` lies in row i's range `[i*col, i*col + col)` |
| MatrixUtil.Row | utils/matrixutil.cc:44-45 | row i is the `col` values at `i*col + j` |
| MatrixUtil.AddToRow | utils/matrixutil.cc:83-87 | after adding `rate * v` into row i, that row's cells moved by `rate * v[j]` and every other cell is unchanged |
| MatrixUtil.AddToRowOtherRows | utils/matrixutil.cc:83-87 | every other row reads the same after the addition |
| MatrixUtil.RowsApart | utils/matrixutil.cc:84-85 | distinct rows occupy disjoint cell ranges |
| MatrixUtil.SumOfSquaresNonNegative | utils/matrixutil.cc:142-147 | the sum of squares under the root is never negative |
| MatrixUtil.DotSymmetric | utils/matrixutil.cc:37-49 | the dot product of two rows does not depend on their order |
| MatrixUtil.DotTimes | utils/matrixutil.cc:62-75 | the dot product with the masked vector is the three-way product Σ a[j]·v[j]·mask[j] the loop computes |
| MatrixUtil.FlatRows | utils/matrixutil.cc:28-33 | the first n rows laid end to end are the first `n*col` cells |
| MatrixUtil.MatrixDowRow | utils/matrixutil.cc:37-49 | the dot product of row idx1 of one matrix and row idx2 of another; nothing is written |
| MatrixUtil.MatrixDowRowVec | utils/matrixutil.cc:50-61 | with `col == vec.size()`: the dot product of a row and the vector |
| MatrixUtil.MatrixDowRowMasked | utils/matrixutil.cc:62-75 | with `col == vec.size() == mask.size()`: the dot product of a row and the masked vector |
| MatrixUtil.MatrixAdd | utils/matrixutil.cc:77-88 | row dest_idx gains `rate` times row src_idx (as it was on entry), every other cell is unchanged, also when both are one matrix |
| MatrixUtil.MatrixAddVec | utils/matrixutil.cc:89-99 | row dest_idx gains `rate * vec[j]`, every other cell is unchanged |
| MatrixUtil.MatrixAddMasked | utils/matrixutil.cc:100-111 | row dest_idx gains `rate * vec[j] * mask[j]`, every other cell is unchanged |
| MatrixUtil.MatrixGetVec | utils/matrixutil.cc:115-125 | `vec[j]` gains `rate` times cell (src_idx, j); the matrix is only read |
| MatrixUtil.MatrixGetVecMasked | utils/matrixutil.cc:126-138 | `vec[j]` gains `rate * cell * mask[j]`; the matrix is only read |
| MatrixUtil.MatrixMul | utils/matrixutil.cc:20-34 | each `result[i]` gains the dot product of row i with the masked hidden vector; `result` is not cleared first |
| MatrixUtil.AccumulateRow | utils/matrixutil.cc:29-32 | the inner loop adds row i times the masked hidden vector to the running entry |
| MatrixUtil.MatrixNorm | utils/matrixutil.cc:139-148 | the root of the sum of squares of one row; nothing is written |
| Config.ModelName.Code | utils/argsconf.h:16 | the model kinds are numbered 1 to 4 (skip, cls, kb, pair) |
| Config.Defaults | utils/argsconf.h:37-67 | the member initialisers; the free-form map starts empty |
| Config.DefaultsChecked | utils/argsconf.cc:156-183 | the defaults enable every task and meet every CheckMin minimum |
| Config.CheckArgs | utils/argsconf.cc:156-190 | passing means some task is enabled, every integer setting is at least its minimum (at least 1) and every float setting is non-negative; all tasks disabled always fails |
| Config.CheckArgsPerKey | utils/argsconf.cc:165-179 | an integer setting below its own minimum makes CheckArgs fail whatever the others are, and raising a setting of a passing configuration keeps it passing |
| Config.ApplyLinesKeys | utils/argsconf.cc:59-99 | reading any lines keeps every key CheckArgs reads and keeps the free-form keys lower-case |
| Config.CleanLineParts | utils/argsconf.cc:60-66 | a clean `key=value` line survives trimming and lower-casing, is not a comment and is cut into exactly `key` and `value` |
| Config.ApplyCleanLine | utils/argsconf.cc:70-98 | such a line stores the value by the key's type: strings verbatim, ints with `atoi`, floats with `atof`, bools `true` iff the value is "true", anything else in the free-form map where both lookups then find it; nothing else changes |
| Config.LaterLineOverrides | utils/argsconf.cc:94-97 | a later line for the same free-form key overrides an earlier one |
| Config.LineWithoutOneEquals | utils/argsconf.cc:64-68 | a line that does not hold exactly one `=` (a value holding `=` included) changes nothing |
| Config.ParamStrIgnoresCase | utils/argsconf.cc:200-207 | GetParamStr looks up the lower-cased key, so the case of its argument does not matter |
| Config.ParamNumIsCaseSensitive | utils/argsconf.cc:192-198 | GetParamNum does not lower-case: a key with a capital letter is never found in a file-read map and gives -1 |
| Config.LoweredIdempotent | utils/fileutil.cc:20-24 | lower-casing a line twice is lower-casing it once |
| Config.ArgsConf.constructor | utils/argsconf.cc:9-44 | a fresh configuration holds the defaults |
| Config.ArgsConf.Init | utils/argsconf.cc:50-102 | false when the file cannot be opened (nothing changes); otherwise every line applied in order |
| Config.ArgsConf.ReadLine | utils/argsconf.cc:59-99 | one pass of the reading loop applies one line |
| Config.ArgsConf.Store | utils/argsconf.cc:70-98 | the dispatch through the four pointer maps stores the value by the key's type |
| HashTableSpec.Hash | utils/hashtable.cc:91-98 | the FNV-1a hash (start 2166136261, xor the widened byte, multiply by 16777619 modulo 2^32) reduced modulo the capacity is below the capacity |
| HashTableSpec.WidenIsSignExtension | utils/hashtable.cc:94 | `uint32_t(word[i])` of a signed `char` sign-extends: bytes from 0x80 up become 0xFFFFFF80 and above |
| HashTableSpec.Probe | utils/hashtable.cc:100-106 | GetWordIdx stops at a slot that is empty or holds the word, or never stops (None) |
| HashTableSpec.NextIsMod | utils/hashtable.cc:103 | one probe step is `(hval + 1) % max_vocab_size_` |
| HashTableSpec.AtIsMod | utils/hashtable.cc:101-104 | the d-th probed slot is `(h + d) % cap` |
| HashTableSpec.ProbeFromIsFirstStop | utils/hashtable.cc:102-104 | the probe stops iff some slot of its sequence is empty or holds the word, and then at the first such slot |
| HashTableSpec.ProbeTerminates | utils/hashtable.cc:102-104 | with one empty slot, every probe stops |
| HashTableSpec.ProbeFromAfterFill | utils/hashtable.cc:175-176 | filling an empty slot with a new row leaves every other word's probe where it was |
| HashTableSpec.Reindex | utils/hashtable.cc:204-210 | inserting the rows one after another into an all-empty index fills exactly one slot per row with its row number |
| HashTableSpec.ReindexIndexes | utils/hashtable.cc:204-210 | that index locates every row at a slot naming it |
| HashTableSpec.FillKeepsIndex | utils/hashtable.cc:175-177 | giving the next row the slot its probe ends at keeps every earlier row located and the slot was empty |
| HashTableSpec.FindCorrect | utils/hashtable.cc:108-114 | GetWordPos stops iff the word is stored or a slot is free; a stored word gives its own row, an absent one -1 |
| HashTableSpec.FindInSpace | utils/hashtable.cc:100-114 | with a free slot every lookup ends |
| HashTableSpec.WordFreqAndHasWord | utils/hashtable.cc:128-139 | GetWordFreq and HasWord end exactly when GetWordPos does; HasWord is "found" and GetWordFreq is the found row's frequency or 0 |
| HashTableSpec.WordFreqIsFreqOf | utils/hashtable.cc:128-134 | with a free slot GetWordFreq is the frequency of the row holding the word, 0 when none does |
| HashTableSpec.FindWordsOnly | utils/hashtable.cc:100-114 | lookups depend only on the stored words and the index |
| HashTableSpec.PositionsKeepout | utils/hashtable.cc:116-126 | with `keepout`, one entry per word: its row or -1 |
| HashTableSpec.PositionsDropMissing | utils/hashtable.cc:116-126 | without `keepout`, the keepout result with the -1 entries dropped |
| HashTableSpec.Token | utils/hashtable.cc:42 | the scanned string is `"<" + word + ">>"` |
| HashTableSpec.PiecesShape | utils/hashtable.cc:43-72 | every piece is a run of whole UTF-8 characters of the token starting at a character boundary, at most `subngram` characters, never ending at the final byte, never a lone boundary byte, never the word itself |
| HashTableSpec.TrimmedPieceIsNotWord | utils/hashtable.cc:54-60 | no piece trims down to the word it was cut from, so inserting a piece never inserts the word |
| HashTableSpec.QueryPieces | utils/hashtable.cc:56-58 | the found pieces' rows, each naming a row |
| HashTableSpec.BuildPieces | utils/hashtable.cc:56-64 | in build mode missing pieces are inserted with frequency 0 and no subwords; the table stays canonical and every returned row exists |
| HashTableSpec.SubWordList | utils/hashtable.cc:26-73 | query mode leaves the table as it is; build mode with adding only appends piece rows; every returned id names a row |
| HashTableSpec.SubWordListKnown | utils/hashtable.cc:34-39 | in query mode a known word returns its stored list unchanged |
| HashTableSpec.SubWordLists | utils/hashtable.cc:75-89 | the lists of the words whose row id is not negative, concatenated; every entry names a row |
| HashTableSpec.Bump | utils/hashtable.cc:158-160 | adding `f` to listed rows keeps the rows' words and subword lists |
| HashTableSpec.BumpFreq | utils/hashtable.cc:158-160 | each row gains `f` once per listing |
| HashTableSpec.Place | utils/hashtable.cc:175-181 | the new row is appended and takes the slot its probe ends at; below 70% occupancy (or without `enable_rebuild`) nothing else changes; the table stays canonical |
| HashTableSpec.RaiseFloor | utils/hashtable.cc:179 | `word_filter_freq_` rises by one, nothing else changes |
| HashTableSpec.AddPlain | utils/hashtable.cc:60 | AddWord(piece, 0, false, false, false): an empty or known piece changes nothing, a new one is appended with no subwords at the slot its probe ends at |
| HashTableSpec.AddPlainIsAddWord | utils/hashtable.cc:141-183 | that call is AddWord with those arguments |
| HashTableSpec.AddNew | utils/hashtable.cc:163-181 | the new-word branch keeps the table canonical; its slot is looked up after the subword insertion (see Findings) |
| HashTableSpec.AddExisting | utils/hashtable.cc:152-162 | the known-word branch keeps words, index and row count |
| HashTableSpec.AddWord | utils/hashtable.cc:141-183 | every AddWord keeps the table canonical (row count, index) and, when subwords were in range, keeps them in range |
| HashTableSpec.AddWordEmpty | utils/hashtable.cc:146-150 | a word that trims to nothing changes nothing |
| HashTableSpec.AddWordKnown | utils/hashtable.cc:152-162 | a known word with `add_freq` gains `f`, and with `add_subword` each row of its list gains `f` once per listing; row count and index unchanged |
| HashTableSpec.AddWordFresh | utils/hashtable.cc:163-177 | a new word without subwords and without a rebuild is appended as `(word, [], f)`, found at its row, and `wordsize_` grows by one |
| HashTableSpec.AddWordOnce | utils/hashtable.cc:185-188 | one AddWord(word, f) below the rebuild threshold adds `f` to that word's frequency and to no other |
| HashTableSpec.AddWordList | utils/hashtable.cc:185-189 | AddWord(list) keeps the table canonical |
| HashTableSpec.AddWordListCounts | utils/hashtable.cc:185-189 | without a rebuild on the way, each word's frequency grows by its occurrence count; from an empty table it equals the count |
| HashTableSpec.Kept | utils/hashtable.cc:192-198 | the kept rows are a subsequence of the rows |
| HashTableSpec.KeptMembers | utils/hashtable.cc:192-198 | a row is kept iff `m <= 0` or `int(freq) >= m` |
| HashTableSpec.Rebuild | utils/hashtable.cc:191-225 | the rebuilt table is canonical, its subword entries name rows, and its floor is unchanged |
| HashTableSpec.RebuildRows | utils/hashtable.cc:199-224 | the rows are the kept rows stable-sorted by descending frequency with only their lists re-resolved; `wordsize_` is their count and `train_words_` the sum of their frequencies |
| HashTableSpec.RebuildSorted | utils/hashtable.cc:200-203 | frequencies are non-increasing down the rows |
| HashTableSpec.RebuildFilters | utils/hashtable.cc:192-198 | exactly the words whose frequency reaches the floor survive (all when `m <= 0`) |
| HashTableSpec.RebuildIndexes | utils/hashtable.cc:204-211 | afterwards every row's word is found at its own position |
| HashTableSpec.Resolved | utils/hashtable.cc:213-219 | an empty subword list stays empty; every entry of a re-resolved list names a row |
| HashTableSpec.RebuildAboveFloor | utils/hashtable.cc:192-198 | every row a rebuild keeps reaches the floor |
| HashTableSpec.RebuildIdempotent | utils/hashtable.cc:191-225 | rebuilding twice with the same floor gives what the first rebuild gave |
| HashTableSpec.FreqSumPermutation | utils/hashtable.cc:221-224 | reordering rows keeps the frequency sum |
| HashTable.HashTable.constructor | utils/hashtable.cc:10-19 | no rows, every slot -1, `wordsize_` 0, filter floor 1; the table is canonical |
| HashTable.HashTable.GetWordHash | utils/hashtable.cc:91-98 | the hash loop over the signed bytes, modulo the capacity, computes Hash |
| HashTable.HashTable.GetWordIdx | utils/hashtable.cc:100-106 | the probe loop returns the slot holding the word or the first empty one; callable only when that probe ends |
| HashTable.HashTable.GetWordPos | utils/hashtable.cc:108-114 | the stored row of the word, or -1 |
| HashTable.HashTable.GetWordPosList | utils/hashtable.cc:116-126 | one entry per word with `keepout`, only the found rows otherwise |
| HashTable.HashTable.GetWordFreq | utils/hashtable.cc:128-134 | the frequency of the found row, 0 when absent |
| HashTable.HashTable.HasWord | utils/hashtable.cc:136-139 | whether the probe ends at an occupied slot |
| HashTable.HashTable.BumpRows | utils/hashtable.cc:158-160 | each listed row gains `f` once per listing; nothing else changes |
| HashTable.HashTable.RaiseRow | utils/hashtable.cc:152-162 | the known-word branch of AddWord |
| HashTable.HashTable.PlaceNew | utils/hashtable.cc:170-181 | each subword row gains `f`, then the new row is placed |
| HashTable.HashTable.PlaceRow | utils/hashtable.cc:175-181 | the new row takes its probe slot and the next row number; past 70% occupancy with `enable_rebuild` the floor rises by one and the table is rebuilt |
| HashTable.HashTable.AppendRow | utils/hashtable.cc:175-177 | the row goes last, the slot takes its number, `wordsize_` grows by one |
| HashTable.HashTable.GetSubWordList | utils/hashtable.cc:26-73 | the ids and the new state are those of SubWordList |
| HashTable.HashTable.QuerySubWordList | utils/hashtable.cc:26-73 | without insertion the table is only read and the ids are those of SubWordList |
| HashTable.HashTable.GetSubWordLists | utils/hashtable.cc:75-89 | the query-mode lists of the words with a non-negative id, concatenated |
| HashTable.HashTable.QueryLoop | utils/hashtable.cc:56-58 | the rows of the pieces that are present, in order |
| HashTable.HashTable.BuildLoop | utils/hashtable.cc:56-64 | each missing piece is inserted with frequency 0, then looked up again |
| HashTable.HashTable.AddWord | utils/hashtable.cc:141-183 | the new state is AddWord of the old one |
| HashTable.HashTable.AddWordList | utils/hashtable.cc:185-189 | the new state is AddWordList of the old one |
| HashTable.HashTable.Rebuild | utils/hashtable.cc:191-225 | the new state is Rebuild of the old one |
| HashTable.HashTable.DropBelow | utils/hashtable.cc:192-199 | only rows with `int(freq) >= m` stay (all when `m <= 0`), in order |
| HashTable.HashTable.ReindexSlots | utils/hashtable.cc:204-210 | every slot emptied, then each row inserted in order: the canonical index |
| HashTable.HashTable.ResolveRows | utils/hashtable.cc:213-219 | each non-empty subword list becomes the rows of its word's pieces, looked up without adding |
| HashTable.HashTable.SumFreqs | utils/hashtable.cc:221-224 | `train_words_` is the sum of the row frequencies |
| HashTable.HashTable.InitDiscardTable | utils/hashtable.cc:227-243 | the sample is recorded, `train_words_` becomes the frequency sum, and the cache holds one rate per row unless that sum is not positive |
| HashTable.HashTable.RateOf | utils/hashtable.cc:263-281 | the rate an id is compared with: recomputed for a boosted sample, read from the cache otherwise |
| HashTable.HashTable.GetDiscardRate | utils/hashtable.cc:245-259 | 0 past the cache, 1 for a boosted sample without training words, the recomputed rate when boosted, the cached rate otherwise |
| HashTable.HashTable.RandomDiscardIds | utils/hashtable.cc:261-283 | every id whose draw exceeds its rate is removed; a boosted sample without training words keeps every id |
| HashTable.HashTable.RandomDiscardWords | utils/hashtable.cc:285-308 | the words' rows (-1 when absent), with each entry whose draw exceeds its rate set to -1 |
| HashTable.HashTable.MarkLoop | utils/hashtable.cc:294-306 | entry i is set to -1 in place when its draw exceeds its rate |
| HashTable.HashTable.CombineWordVec | utils/hashtable.cc:324-335 | each item's word is added with its frequency; the row of an item with subwords gets a 0 marker |
| HashTable.HashTable.MarkCombined | utils/hashtable.cc:328-333 | the row the item's word is found at gets the marker 0 |
| HashTable.HashTable.FilterPhraseFromNgram | utils/hashtable.cc:337-386 | the rows not discarded are kept in order and the table is rebuilt with `Rebuild(-1)` |
| HashTable.JudgeRows | utils/hashtable.cc:342-369 | one discard judgement per row, against the word table |
| HashTable.KeepRows | utils/hashtable.cc:371-384 | the rows not marked, in order |
| HashTable.PhraseDiscarded | utils/hashtable.cc:347-368 | no parts: discarded; one part: discarded iff its frequency is below `minphrasefreq`; more: discarded iff the score is below the threshold |
| HashTable.PartsProduct | utils/hashtable.cc:357-361 | the product over the parts of `max(1, GetWordFreq(part))` |
| HashTable.ScanPieces | utils/hashtable.cc:42-72 | the scan over `"<" + word + ">>"` yields exactly Pieces |
| HashTable.ScanRuns | utils/hashtable.cc:46-71 | the inner loop yields the runs that start at byte i |
| HashTableDiscard.InitDiscard | utils/hashtable.cc:227-243 | InitDiscardTable keeps rows, index, row count, floor and subword size, and keeps a canonical table canonical |
| HashTableDiscard.InitDiscardShape | utils/hashtable.cc:227-243 | the sample is recorded, `train_words_` is the frequency sum, and the cache holds one rate per row when that sum is positive and none otherwise |
| HashTableDiscard.CachedRateIsDirect | utils/hashtable.cc:238-258 | after InitDiscardTable an unboosted GetDiscardRate of a row equals the rate the boosted branch computes with boost 1 |
| HashTableDiscard.NoOccurrencesRateZero | utils/hashtable.cc:234-248 | without occurrences the cache is empty and every GetDiscardRate is 0 |
| HashTableDiscard.InitDiscardIdempotent | utils/hashtable.cc:227-243 | a second InitDiscardTable with the same sample changes nothing |
| HashTableDiscard.KeepPassingSelects | utils/hashtable.cc:268-280 | the remove_if pass keeps exactly the ids whose draw is at most their rate, in order, and fails exactly when it reads a rate out of range |
| HashTableDiscard.DiscardIdsSubseq | utils/hashtable.cc:261-283 | RandomDiscard(word_idx_vec) keeps a subsequence of its input |
| HashTableDiscard.DiscardIdsKeepsPassing | utils/hashtable.cc:261-283 | when no draw exceeds its rate, nothing is dropped |
| HashTableDiscard.MarkRows | utils/hashtable.cc:294-306 | the marked vector has the input's length and each entry is kept or -1 |
| HashTableDiscard.MarkRowsKeeps | utils/hashtable.cc:294-306 | an entry survives iff it is -1 already or its draw is at most the rate of its own row |
| HashTableDiscard.DiscardWords | utils/hashtable.cc:285-308 | one entry per word, either -1 or the row that holds the word |
| HashTableDiscard.PositionsFind | utils/hashtable.cc:288 | every entry of GetWordPos(list, true) is the lookup of its word |
| HashTableDiscard.FindsRowOrMinusOne | utils/hashtable.cc:288 | each lookup gives -1 or the row holding the word |
| HashTableDiscard.MarkRowsBoostedDefined | utils/hashtable.cc:294-300 | with the -1 entries skipped, the boosted pass never reads outside the rows |
| HashTableDiscard.MarkBoostedAsWritten | utils/hashtable.cc:294-300 | the boosted loop as written: one entry per word, kept or -1, when it does not read out of range |
| HashTableDiscard.MarkBoostedReadsMinusOne | utils/hashtable.cc:295 | as written, the boosted loop reads `wordvec_[-1]` as soon as one entry is -1 |
| HashTableDiscard.UnknownWordReadsBeforeRows | utils/hashtable.cc:288-300 | as written, a boosted call on a sentence with an unknown word reads before the start of `wordvec_` |
| HashTableDiscard.UnknownWordStaysMinusOne | utils/hashtable.cc:288-300 | with -1 entries skipped, the unknown word stays -1 and the pass goes on |
| HashTableDiscard.MarkByPosition | utils/hashtable.cc:302-306 | the unboosted loop as written compares the i-th coin with the cached rate of row i |
| HashTableDiscard.PositionKeyedRates | utils/hashtable.cc:302-306 | on words at rows 1 and 0 with rates 2 and 0 and draws 0.5, the as-written pass keeps the word of the always-dropped row and drops the word of the always-kept row; the row-keyed pass does the opposite |
| HashTableDiscard.ByPositionExample | utils/hashtable.cc:302-306 | the position-keyed marks of rows [1, 0] with rates [2, 0] and draws 0.5 are [1, -1] |
| HashTableDiscard.ByRowExample | utils/hashtable.cc:302-306 | the row-keyed marks of the same input are [-1, 0] |
| HashTableMerge.MarkItem | utils/hashtable.cc:328-333 | the marking step keeps the table canonical |
| HashTableMerge.MarkSubwords | utils/hashtable.cc:331 | row `pos` gets a non-empty list by appending 0; words, frequencies and every other row unchanged |
| HashTableMerge.CombineItem | utils/hashtable.cc:325-333 | AddWord(item.word, item.freq) with the defaults, then the marking step, keeps the table canonical |
| HashTableMerge.Combine | utils/hashtable.cc:324-335 | CombineWordVec keeps the table canonical |
| HashTableMerge.CombineItemOnce | utils/hashtable.cc:325-333 | one item below the rebuild threshold adds at most one row, adds its frequency to its trimmed word only, and keeps every old row's word and marker |
| HashTableMerge.CombineFreq | utils/hashtable.cc:324-335 | below the rebuild threshold every word's frequency grows by the total frequency of the items that trim to it, and old rows keep their words and markers |
| HashTableMerge.CombineMarks | utils/hashtable.cc:328-333 | below the rebuild threshold, every item with subwords and a clean word ends on a row with a non-empty list, so the next rebuild resolves it |
| HashTableMerge.PartProduct | utils/hashtable.cc:357-361 | the product of `max(1, freq)` over the parts is at least 1 |
| HashTableMerge.Survivors | utils/hashtable.cc:371-382 | the surviving rows are a subsequence of the rows |
| HashTableMerge.SurvivorsMembers | utils/hashtable.cc:371-382 | a row survives iff its judgement was to keep it |
| HashTableMerge.FilterPhrase | utils/hashtable.cc:337-386 | the filtered table is canonical, its subword entries name rows |
| HashTableMerge.FilterPhraseKeeps | utils/hashtable.cc:337-386 | after FilterPhraseFromNgram a row's word is still in the table iff the row was not discarded |
| HashTableMerge.FilterPhraseSorted | utils/hashtable.cc:385 | the rows run in non-increasing frequency and `train_words_` is their total |
| HashTableMerge.KeptReachesFloor | utils/hashtable.cc:350-367 | with `phrasefreqthreshold >= 1`, a kept word or phrase has frequency at least `minphrasefreq` |
| HashTableMerge.FilterPhraseFloor | utils/hashtable.cc:337-386 | with `phrasefreqthreshold >= 1` every row left reaches `minphrasefreq` |
| HashTableMerge.RateAboveFloor | utils/hashtable.cc:362-367 | a phrase whose rate reaches a threshold of at least 1 is more frequent than `minphrasefreq` |
| HashTableMerge.SingleWordRule | utils/hashtable.cc:352-355 | a word without underscores is judged by its frequency alone |
| HashTableStore.Fresh | utils/hashtable.cc:10-19 | the constructed table has no rows, `vocab_size` empty slots, a filter floor of 1 and no training words |
| HashTableStore.SaveLines | utils/hashtable.cc:388-402 | Save writes the three header lines and then one line per row |
| HashTableStore.HeaderValue | utils/hashtable.cc:411-425 | a header value read back fits a `uint32_t` |
| HashTableStore.ParseRow | utils/hashtable.cc:429-444 | a data line that is not skipped yields a non-negative frequency |
| HashTableStore.ParseFields | utils/hashtable.cc:431-444 | a line of at least two fields whose frequency reads as non-negative becomes a row with that frequency's integer part; fewer fields or a negative frequency abort |
| HashTableStore.SetSubwords | utils/hashtable.cc:446-450 | only row `pos` gets the parsed subword list; words, counts and the index are unchanged |
| HashTableStore.ApplyRow | utils/hashtable.cc:445-450 | applying a parsed row keeps the table canonical and its setup |
| HashTableStore.Ending | utils/hashtable.cc:445 | an insertion whose probe does not end is an error, any other gives its table |
| HashTableStore.LoadLine | utils/hashtable.cc:428-452 | reading one data line keeps the table canonical and its setup |
| HashTableStore.LoadRows | utils/hashtable.cc:428-452 | reading the data lines keeps the table canonical and its setup |
| HashTableStore.Load | utils/hashtable.cc:404-461 | a successful Load gives a canonical table whose capacity is the file's capacity header, at most the constructed one, and whose `train_words_` is its frequency total |
| HashTableStore.ParseSavedRow | utils/hashtable.cc:394-450 | Load parses the line Save wrote for a storable row back into that row |
| HashTableStore.ApplySavedRow | utils/hashtable.cc:445-450 | a saved row whose word is new is appended as it was |
| HashTableStore.LoadSavedRows | utils/hashtable.cc:428-452 | reading the saved row lines into an empty table gives back the rows in order and counts each |
| HashTableStore.HeaderRoundTrip | utils/hashtable.cc:391-425 | a header value Save writes is read back unchanged |
| HashTableStore.SavedHeader | utils/hashtable.cc:391-425 | the three header lines read back as the capacity, the row count and the filter floor |
| HashTableStore.LoadSave | utils/hashtable.cc:388-461 | Load of what Save wrote, into a table constructed with at least the saved capacity, gives back the saved table, capacity included, with its discard table recomputed |
| HashTableStore.LoadCapacity | utils/hashtable.cc:411-414 | with positive headers, a file capacity above the constructed one is refused; one within it loads exactly when its rows read into a table of the file's capacity and their count matches the word size |
| HashTableStore.EmptySaveRefused | utils/hashtable.cc:392-419 | a table without rows saves a word count of 0, which Load refuses |
| HashTableFinding.AddNewAsWritten | utils/hashtable.cc:151-181 | the new-word branch with the slot probed before the subwords are resolved appends the word as the last row |
| HashTableFinding.PlaceAt | utils/hashtable.cc:170-177 | the subword rows gain the frequency, the word is appended and slot `idx` points at it |
| HashTableFinding.StaleSlotDropsRow | utils/hashtable.cc:151-176 | when the new word's empty home slot is also the home of one of its pieces, the as-written insertion leaves one row more than occupied slots |
| HashTableFinding.StaleSlotLosesPiece | utils/hashtable.cc:151-176 | AddWord("a") with subwords on an empty table of five slots ends with three rows and two occupied slots |
| HashTableFinding.PlaceKeepsIndex | utils/hashtable.cc:141-183 | probing for the slot after the pieces are in leaves exactly one occupied slot per row |
| HashTableFinding.PlaceKeepsPiece | utils/hashtable.cc:141-183 | the corrected insertion of "a" keeps all three rows indexed |
| HashTableFinding.BuildPiecesHas | utils/hashtable.cc:56-64 | every non-blank piece is among the words once building the pieces succeeds |
| HashTableFinding.BuildPiecesRoom | utils/hashtable.cc:56-64 | with a spare slot per piece, building the pieces succeeds and adds at most one row per piece |
| InputLayerSpec.Draws | layers/inputlayer.cc:29-34 | the `n` draws of a stream from a start, in order |
| InputLayerSpec.Zeros | layers/inputlayer.cc:130 | `n` zeros |
| InputLayerSpec.IdxVecRows | layers/inputlayer.cc:37-71 | every index GetIdxVec returns names a row of the table, so the embedding lookups after it stay inside the matrix |
| InputLayerSpec.PhraseIdsRows | layers/inputlayer.cc:61-66 | every phrase index names a row |
| InputLayerSpec.Gathered | layers/inputlayer.cc:73-81 | the layer keeps its width |
| InputLayerSpec.Skips | layers/inputlayer.cc:88-92 | one skip flag per id |
| InputLayerSpec.SkipsStep | layers/inputlayer.cc:88-92 | with `use_discard_rate` an id is skipped iff its draw exceeds its discard rate, read as `uint32_t`; without it no id is skipped |
| InputLayerSpec.SummedStep | layers/inputlayer.cc:88-95 | each id not skipped adds its row and counts one; a skipped id adds nothing |
| InputLayerSpec.Taken | layers/inputlayer.cc:94 | at most one per id is counted |
| InputLayerSpec.Divided | layers/inputlayer.cc:96-100 | each entry divided by `d` |
| InputLayerSpec.PooledAsWritten | layers/inputlayer.cc:82-101 | the pooling with the divisor as written, starting at the number of ids, keeps the layer's width |
| InputLayerSpec.PooledAsWrittenHalves | layers/inputlayer.cc:87-94 | as written, one row taken alone on a zero layer comes back halved |
| InputLayerSpec.Pooled | layers/inputlayer.cc:82-101 | the pooling with the divisor the number of rows taken keeps the layer's width |
| InputLayerSpec.PooledOneRow | layers/inputlayer.cc:82-101 | with the corrected divisor one row taken alone comes back as it is |
| InputLayerSpec.PooledTwoRows | layers/inputlayer.cc:82-101 | two rows taken pool to their mean, entry by entry |
| InputLayerSpec.GatheredFromZero | layers/inputlayer.cc:73-81 | one row in range gathered onto a zero layer is that row |
| InputLayerSpec.SkippedOrOutsideAddNothing | layers/inputlayer.cc:77-95 | ids outside the matrix and skipped ids add nothing, but only skipped ids stay out of the count |
| InputLayerSpec.AsUnsigned | layers/inputlayer.cc:106 | the `uint32_t` view of an index is below 2^32 |
| InputLayerSpec.UnsignedGuard | layers/inputlayer.cc:106 | for a signed 32-bit index and fewer than 2^31 rows, the unsigned guard rejects exactly the negative indices and those past the last row |
| InputLayerSpec.Updated | layers/inputlayer.cc:103-110 | the matrix keeps its size |
| InputLayerSpec.UpdatedAllOtherRows | layers/inputlayer.cc:111-121 | a row no id names keeps its values through every update |
| InputLayerSpec.UpdatedListOneRow | layers/inputlayer.cc:111-121 | a list of one id gives that row the whole `rate * v` |
| InputLayerSpec.NonZero | layers/inputlayer.cc:141-154 | a norm below 1e-6 in size becomes 1, any other stays |
| InputLayerSpec.Candidates | layers/inputlayer.cc:142-152 | every row visited is inside the matrix and the table |
| InputLayerSpec.CandidatesExactly | layers/inputlayer.cc:142-152 | a row is scored iff it is inside the matrix and the table and its word is listed for the query type |
| InputLayerSpec.CandidatesIncreasing | layers/inputlayer.cc:142 | rows are visited in increasing order, so none is pushed twice |
| InputLayerSpec.Query | layers/inputlayer.cc:130-139 | the query has `dim` entries |
| InputLayerSpec.Scored | layers/inputlayer.cc:153-156 | one (score, row) pair per visited row, in order |
| InputLayerSpec.NeighborsUpTo | layers/inputlayer.cc:124-158 | for a non-empty id list the neighbours are the pairs of every row against the query and its norm |
| InputLayerSpec.NeighborsRows | layers/inputlayer.cc:124-158 | a row appears among the pushed pairs iff it is inside the matrix and the table and its word is listed |
| InputLayer.Fill | layers/inputlayer.cc:24-35 | Init gives cell `k` the `k`-th draw of the initialising generator, row after row |
| InputLayer.EraseNegative | layers/inputlayer.cc:55-58 | the entries that are not negative, in order |
| InputLayer.AddRow | layers/inputlayer.cc:80 | the layer plus `rate` times the row |
| InputLayer.DivideAll | layers/inputlayer.cc:96-100 | each entry of the layer divided by the count |
| InputLayer.InputLayer.constructor | layers/inputlayer.cc:9-35 | one row per lexicon row, `dim` columns, filled from the initialising draws |
| InputLayer.InputLayer.GetIdxVec | layers/inputlayer.cc:37-71 | the indices are the kept word rows, their subword rows and the kept phrase rows, or none for a text outside [minlen, maxlen] |
| InputLayer.InputLayer.GetLayerByIdx | layers/inputlayer.cc:73-81 | `rate` times the row added to the layer; nothing for an index outside the matrix |
| InputLayer.InputLayer.GetLayerByIdxs | layers/inputlayer.cc:82-101 | the rows of the ids not skipped added to the layer and divided by the number taken |
| InputLayer.InputLayer.UpdateData | layers/inputlayer.cc:103-110 | `rate * v` added to the row; nothing when the index as `uint32_t` is past the last row |
| InputLayer.InputLayer.UpdateDataList | layers/inputlayer.cc:111-121 | every id updated in turn with `rate` shared among them; nothing for no ids |
| InputLayer.InputLayer.GetNearestNeighbor | layers/inputlayer.cc:124-158 | the heap gains exactly the scored pairs of the listed rows |
| InputLayer.InputLayer.BuildQuery | layers/inputlayer.cc:130-139 | the query is the sum of the in-range rows |
| InputLayer.InputLayer.RowScore | layers/inputlayer.cc:153-156 | the row's cosine score against the query |
| InputLayer.InputLayer.Save | layers/inputlayer.cc:160-175 | the header lines and one line per row, as the layer text describes |
| InputLayer.InputLayer.Load | layers/inputlayer.cc:177-222 | succeeds iff the layer text is valid, and then holds exactly the matrix read |
| LayerText.Texts | layers/inputlayer.cc:169 | one rendered value per cell of the row, in order |
| LayerText.SaveInput | layers/inputlayer.cc:160-175 | the input layer's file is the row count, the column count and one line per row |
| LayerText.SaveOutput | layers/outputlayer.cc:39-55 | the output layer's file is the row count, the column count and one line per row |
| LayerText.ParseLine | layers/inputlayer.cc:199-209 | a data line that is not skipped has exactly `col` values |
| LayerText.Values | utils/vectorutil.h:19-27 | each field read with `atof`, in order |
| LayerText.ParseRows | layers/inputlayer.cc:198-215 | every row read has `col` values |
| LayerText.Body | layers/inputlayer.cc:198-220 | the rows are accepted only when there are exactly `row` of them, giving a `row` by `col` matrix |
| LayerText.LoadInput | layers/inputlayer.cc:177-222 | a loaded input layer has positive `uint32_t` counts and `row * col` values |
| LayerText.OutputHeader | layers/outputlayer.cc:64-67 | an output header is read untrimmed into a `uint32_t` |
| LayerText.LoadOutput | layers/outputlayer.cc:57-97 | a loaded output layer has `uint32_t` counts, unchecked for zero, and `row * col` values |
| LayerText.SavedLineSplit | layers/inputlayer.cc:169-201 | splitting a saved row line at its tabs gives back the rendered values |
| LayerText.ParseSavedLine | layers/inputlayer.cc:199-209 | Load reads a saved row line back as the values its fields spell |
| LayerText.ParseSavedRows | layers/inputlayer.cc:198-215 | the saved lines of a list of rows parse to those rows reread |
| LayerText.FlatReread | layers/inputlayer.cc:210-213 | rereading commutes with laying the rows end to end |
| LayerText.LoadInputSave | layers/inputlayer.cc:160-222 | loading what Save wrote gives back the input layer's shape and, in every cell, what `atof` reads from the rendered value |
| LayerText.LoadOutputSave | layers/outputlayer.cc:39-97 | the same round trip for the output layer, whose headers are read untrimmed |
| LayerText.OutputHeaderRoundTrip | layers/outputlayer.cc:43-67 | a count Save writes is read back unchanged without trimming |
| LayerText.RowLines | layers/inputlayer.cc:165-173 | one line per row |
| LayerText.RowLinesSnoc | layers/inputlayer.cc:165-173 | one more row adds its line at the end |
| LayerText.InputRowLine | layers/inputlayer.cc:166-170 | the input layer's row line: every rendered value followed by a tab |
| LayerText.OutputRowLine | layers/outputlayer.cc:46-50 | the output layer's row line: every rendered value preceded by a tab |
| LayerText.SaveRows | layers/inputlayer.cc:163-173 | the two counts, then each row's trimmed line |
| LayerText.ReadRows | layers/inputlayer.cc:198-215 | the data lines parsed in turn, blank lines skipped, the first bad line aborting |
| LayerText.ReadInputLayer | layers/inputlayer.cc:184-220 | the reading of the input layer is exactly LoadInput |
| LayerText.ReadOutputLayer | layers/outputlayer.cc:64-95 | the reading of the output layer is exactly LoadOutput |
| OutputLayer.FileName | layers/outputlayer.cc:41-59 | the file name is "layer.output.", the model kind's digit, a dot and the class tag |
| OutputLayer.FileNameInjective | layers/outputlayer.cc:41-59 | two layers share a file iff they have the same kind and the same tag |
| OutputLayer.OutputLayer.constructor | layers/outputlayer.cc:9-37 | `cls_number > 1` rows of `dim` zeros |
| OutputLayer.OutputLayer.Save | layers/outputlayer.cc:39-55 | the layer's own file name and the lines the output layer text describes |
| OutputLayer.OutputLayer.Load | layers/outputlayer.cc:57-97 | succeeds iff the layer's file exists and its text is valid, and then holds exactly the matrix read |
| Sorting.WithKey | model.cc:490-494 | the elements with a given key, in order, are no more than the whole |
| Sorting.SortDescSorted | model.cc:490-494 | `stable_sort` with `p1.second > p2.second` leaves the keys non-increasing |
| Sorting.SortDescPermutation | model.cc:490-494 | the sort is a permutation of its input |
| Sorting.SortDescStable | model.cc:490-494 | elements with equal keys keep their relative order |
| Sorting.SortDescOfSorted | utils/hashtable.cc:200-203 | a sequence already in order is its own sort |
| Sorting.SortDescMembers | model.cc:490-494 | the sort keeps exactly the elements of its input |
| Sorting.SortDescInjective | model.cc:490-494 | a projection with distinct values on the input has distinct values on the sort |
| Prediction.PredictCls | model.cc:449-464 | -1 iff no score exceeds -1000000; otherwise the first index of the largest score |
| Prediction.MaxScore | model.cc:473-479 | `max_score` is one of the scores and no score exceeds it |
| Prediction.Indexed | model.cc:473-478 | label `i` paired with score `i` |
| Prediction.Exps | model.cc:481-484 | each weight is `expf(score - max_score)` |
| Prediction.Reweighed | model.cc:482 | each label keeps its place with its weight as its score |
| Prediction.Shared | model.cc:485-489 | each score divided by a positive sum; nothing changes otherwise |
| Prediction.Normalised | model.cc:473-489 | one pair per output row, label `i` at position `i` |
| Prediction.PredictClsScore | model.cc:466-495 | the result is the normalised pairs stable-sorted by non-increasing score |
| Prediction.ScorePairs | model.cc:473-479 | the first loop gives the indexed pairs and the largest score |
| Prediction.Exponentiate | model.cc:480-484 | the second loop gives the reweighed pairs and the sum of the weights |
| Prediction.DivideScores | model.cc:485-489 | the third loop divides each score by the positive sum |
| Prediction.RankedLabels | model.cc:466-495 | every label appears exactly once with its own normalised score, in non-increasing order of score |
| Prediction.RankedStable | model.cc:490-494 | labels of equal score keep their label order |
| NegTableSpec.Copies | model.cc:124-126 | `n` copies of a row |
| NegTableSpec.NegRowsCount | model.cc:109-129 | InitNegTable() puts a row in the table exactly `copies` times when it has subwords, and never otherwise |
| NegTableSpec.NegRowsEntries | model.cc:109-129 | a row is in the table iff it has subwords and at least one copy |
| NegTableSpec.KeyLabel | model.cc:142-155 | a key yields a label iff it has two fields, the first is the model's tag, and the second reads as a non-negative label |
| NegTableSpec.NegLabelsEntries | model.cc:130-163 | a label is in InitNegTable(map)'s table iff some key of the model's tag carries it and gets at least one copy |
| NegTableSpec.CountedLabelSampled | model.cc:130-163 | a label counted for a tag by the training pass is in the table of that tag's model |
| TrainerSpec.NextRand | model.cc:105 | the generator state stays a 64-bit value |
| TrainerSpec.RandInt | model.cc:101-107 | `min` with the state untouched when `min >= max`; otherwise a value in [min, max] and one generator step |
| TrainerSpec.SigmoidIndex | model.cc:195-203 | the slot read for `x` in [-8, 8] is one of the 513 slots InitSigmoid fills |
| TrainerSpec.Sigmoid | model.cc:195-203 | inside [-8, 8] GetSigmoid returns a table entry |
| TrainerSpec.SigmoidMonotone | model.cc:187-203 | over a rising table GetSigmoid is monotone and stays in [0, 1] |
| TrainerSpec.LogIndex | model.cc:214-220 | the slot read for `x` in [0, 1] is at most LOG_TABLE_SIZE, reached exactly at 1 |
| TrainerSpec.LogSlotsWritten | model.cc:208-211 | InitLog writes slots 0 to LOG_TABLE_SIZE, one more than the LOG_TABLE_SIZE it allocates |
| TrainerSpec.LogAsWritten | model.cc:206-220 | as written, GetLog over the LOG_TABLE_SIZE slots allocated reads past the end exactly at `x == 1` |
| TrainerSpec.LogTableOverflow | model.cc:206-220 | the loss of a sure prediction (sigmoid of a score above 8 for a positive label, below -8 for a negative one) reads the slot past the end |
| TrainerSpec.Log | model.cc:214-220 | over LOG_TABLE_SIZE + 1 slots GetLog returns a table entry for every `x <= 1` |
| TrainerSpec.LogAgrees | model.cc:214-220 | with the extra slot, GetLog agrees with the code as written wherever that stays in bounds |
| TrainerSpec.LogMonotone | model.cc:206-220 | over a rising table GetLog is monotone on [0, 1] |
| TrainerSpec.MeanLoss | model.cc:222-229 | -1 until two loss events, then the mean loss per event |
| TrainerSpec.NegSampleOf | model.cc:39-59 | a negative (missing) value gives 5 negatives, any other its integral part |
| TrainerSpec.InitParams | model.cc:32-60 | the skip-gram boost is never negative, a knowledge-base model keeps the defaults, only a classifier can use softmax, a pair model keeps five negatives, and only cls and pair models can be skip examples |
| TrainerSpec.MissingBoostNeverTrains | model.cc:34-48 | a classifier or pair model without its boost key gets boost -1 and never trains |
| TrainerSpec.SkipDefaults | model.cc:55-59 | the skip-gram model falls back to boost 1 and five negatives when its keys are missing |
| TrainerSpec.DrawOutside | model.cc:174-185 | the label drawn is the entry under the cursor, which stays inside the table |
| TrainerSpec.DrawOutsideSteps | model.cc:174-185 | at least one draw and no more than the budget left; every entry passed over is a positive, and the label returned is not one unless the budget ran out |
| TrainerSpec.NegRound | model.cc:295-300 | `neg_sample` negatives, each an entry of the table; the cursor moves only when some are drawn |
| TrainerSpec.NgramOfJoins | model.cc:324 | the n-gram of a round is empty or its words joined by underscores |
| TrainerSpec.RoundInput | model.cc:318-340 | a round that does not break has an n-gram inside the list, found at the row its input starts with, followed by that row's subwords for a single word and nothing else otherwise |
| TrainerSpec.RoundInputBreaks | model.cc:321-331 | with an empty slot left the n-gram loop breaks exactly at the end of the list, at a discarded word after the first, or at an n-gram missing from the lexicon |
| TrainerSpec.RoundInputRow | model.cc:324-335 | the row of a round's input holds the round's words joined by underscores |
| TrainerSpec.UnigramIgnoresDiscard | model.cc:324 | a discarded word still trains as the centre of its own unigram round |
| TrainerSpec.RoundInputs | model.cc:319 | the inputs of rounds (i, 1) to (i, ngram) |
| TrainerSpec.StepsFrom | model.cc:319-331 | every round from start `i` lies in the list and starts with a row |
| TrainerSpec.StepsFromRound | model.cc:319-331 | round `k` from start `i` is the round of length `k + 1`, and every shorter one had an input |
| TrainerSpec.StepsOfUntil | model.cc:319-331 | the rounds up to a break, or up to the last length, are all the rounds of the n-gram loop |
| TrainerSpec.Leftward | model.cc:356 | the positions left of `i`, nearest first |
| TrainerSpec.Rightward | model.cc:367-368 | the positions right of the n-gram up to the end, nearest first |
| TrainerSpec.Kept | model.cc:357-372 | the positions whose word was kept |
| TrainerSpec.PickIsKeptPrefix | model.cc:355-375 | a window takes exactly the first `min(b, kept)` kept positions of its side, widening past each discarded word |
| TrainerSpec.PickKept | model.cc:355-375 | every position a window takes is a kept position of its side |
| TrainerSpec.LeftAsWritten | model.cc:355-363 | the left loop as written, whose `i - lbound` is computed in 32-bit unsigned arithmetic |
| TrainerSpec.LeftWindowWraps | model.cc:356 | two kept words and radius 2 around the second: the loop as written takes no left neighbour, while the window holds position 0 |
| TrainerSpec.LeftAsWrittenEmpty | model.cc:356 | a radius larger than the number of words to the left empties the left window as written |
| TrainerSpec.Context | model.cc:355-375 | the context of a round holds kept positions of the list outside the round's n-gram |
| TrainerSpec.Outputs | model.cc:361-374 | the rows at the context's positions |
| TrainerSpec.Visits | model.cc:283-302 | one update per output, with the round's input and `neg_sample` negatives |
| TrainerSpec.Radius | model.cc:352 | the radius is at least 1 and, for a window above 1, at most `windowsize` |
| TrainerSpec.AdvanceAfter | model.cc:318-380 | a round depends on the updates before it only by appending to them |
| TrainerSpec.PlanAppend | model.cc:318-380 | running rounds `a + b` is running `a`, then `b` from the generator state and the cursor `a` left |
| TrainerSpec.RoundUpdatesFed | model.cc:350-375 | every update of a round trains its input towards a kept word of its context, with `neg_sample` negatives |
| TrainerSpec.PlanUpdatesFromContext | model.cc:318-380 | every update of UpdateSkip trains the input of one of its rounds towards a kept word outside that round's n-gram |
| TrainerSpec.AllInputsFlat | model.cc:318-331 | the skip-gram run over a word list is the plan over its rounds, start by start |
| Trainer.LeftWindow | model.cc:354-363 | the left loop, with `i - lbound` in signed arithmetic, takes the window of radius `b` left of `i`, widening past each discarded word |
| Trainer.RightWindow | model.cc:365-375 | the right loop takes the window of radius `b` right of the n-gram, widening past each discarded word |
| Trainer.Ngram | model.cc:324 | the n-gram of one round |
| Trainer.Model.constructor | model.cc:9-80 | the parameters Init reads for the model's kind and tag, no loss events, an empty negative table with its cursor at 0 |
| Trainer.Model.GetRandInt | model.cc:101-107 | the value and generator step of RandInt; nothing else changes |
| Trainer.Model.GetNegativeLabel | model.cc:165-172 | the cursor moves on cyclically to the first entry that is not the positive label, passing only entries equal to it, and returns that entry |
| Trainer.Model.GetNegativeLabelOutside | model.cc:174-185 | the draw DrawOutside describes, from the cursor, with no earlier draws |
| Trainer.Model.UpdateNeg | model.cc:283-302 | nothing on an empty input; otherwise the `neg_sample` negatives drawn outside the positives when asked for, and one loss event |
| Trainer.Model.VisitAll | model.cc:361-374 | the UpdateNeg calls of one round towards each output, one loss event each |
| Trainer.Model.UpdateCls | model.cc:383-407 | no change unless the input is non-empty and the boost exceeds 1e-6; otherwise one loss event, with softmax drawing nothing and negative sampling drawing `neg_sample` labels outside `{label}` |
| Trainer.Model.UpdatePair | model.cc:409-436 | one loss event when both inputs are non-empty and the boost exceeds 1e-6, none otherwise; the negative table is not used |
| Trainer.Model.RoundLookup | model.cc:320-340 | the input of round (i, n), or none where the n-gram loop breaks |
| Trainer.Model.WindowRound | model.cc:350-375 | both windows and one update towards each word in them |
| Trainer.Model.SkipRound | model.cc:342-378 | the radius drawn from the generator, then the updates of the round for it |
| Trainer.Model.SkipFrom | model.cc:319-379 | the rounds from start `i`, in order of length, until the n-gram loop breaks |
| Trainer.Model.UpdateSkip | model.cc:304-381 | nothing when the number of words is outside [minlen, maxlen]; otherwise RandomDiscard and then every round of every start, each update counted as one loss event |
| Trainer.Model.SkipAll | model.cc:318-380 | the n-gram loop for every start in turn |
| Trainer.Model.InitNegTable | model.cc:109-129 | every row with subwords, in row order, `copies` times, appended to the table |
| Trainer.Model.InitNegTableOfCounts | model.cc:130-163 | fails, adding nothing, iff no key of the model's tag has a positive count; otherwise each label of the tag `copies(key)` times, in the map's order |
| Trainer.Model.PushLabels | model.cc:142-161 | the copies of every label of this tag appended to the table |
| Trainer.Model.PushLabel | model.cc:143-160 | one key adds `copies(key)` copies of its label when the key holds a label of this tag, and nothing otherwise |
| Trainer.Model.SumPositive | model.cc:133-141 | whether the sum over the keys of this tag is positive |
| Trainer.Model.ReadKeyLabel | model.cc:143-155 | the label a key gives this model |
| Trainer.Model.PushCopies | model.cc:157-159 | `n` copies of the label appended |
| Trainer.CyclicDistance | model.cc:168 | the cyclic cursor reaches any slot in 1 to `n` steps |
| EmbeddingSpec.LineFields | embedding.cc:62-65 | the fields of a training or evaluation line: one per tab-separated piece of the trimmed, lower-cased line |
| EmbeddingSpec.Classify | embedding.cc:67-103 | a line is `skip` with exactly 2 fields, `pair` with exactly 5 (its text the two sides joined by " . "), `cls` with exactly 4 and a non-negative label, each only when its task is enabled; every other line, a cls line with a negative label included, adds nothing (both directions) |
| EmbeddingSpec.Key | embedding.cc:76-96 | the count key is the tag, a tab, then the label |
| EmbeddingSpec.Bump | embedding.cc:77-81 | a key absent from the count map is seeded with 1, a present one grows by 1; every other key keeps its count |
| EmbeddingSpec.Raise | embedding.cc:90-95 | a new tag records the label, a known one keeps the larger of the two; other tags are unchanged |
| EmbeddingSpec.TallyCounts | embedding.cc:70-103 | after a file, every cls key and every pair key counts exactly its lines, and a key is present exactly when it has a line |
| EmbeddingSpec.TallyClsMax | embedding.cc:90-95 | a cls tag is recorded exactly when it has a line, with the largest label among its lines |
| EmbeddingSpec.TallyPairTags | embedding.cc:75 | a pair tag is recorded, always as 1, exactly when it has a pair line |
| EmbeddingSpec.TallyKeysHaveTags | embedding.cc:90-101 | a recorded cls key always comes with its tag in the tag map |
| EmbeddingSpec.Kinds | embedding.cc:60-103 | the kind of each line of a training file, in file order |
| EmbeddingSpec.KindsTabFree | embedding.cc:64 | tags cut from a line at its tabs hold no tab, so keys of different tags never coincide |
| EmbeddingSpec.TallyAsWrittenMaps | embedding.cc:90-101 | the cls branch as written differs from the corrected one only in the cls count map |
| EmbeddingSpec.ClsCountsAsWritten | embedding.cc:90-101 | as written, a cls key counts its lines plus one for each line that introduced its tag |
| EmbeddingSpec.OneClsLineCountedTwice | embedding.cc:90-101 | the single line `cls t 0 x` is counted 2 as written and 1 when corrected |
| EmbeddingSpec.InitModel | embedding.cc:221-243 | a skip model with one class per word-table row, one cls model per cls tag with largest label plus one classes, one pair model per pair tag with 2 classes; the whole set fails exactly when the word table has at most one row or a cls tag's largest label is below 1, the counts the output layer refuses |
| EmbeddingSpec.TrainingLabelsFit | embedding.cc:228-235 | every cls training line has a model for its tag whose class count exceeds its label |
| EmbeddingSpec.PairTagsHaveModels | embedding.cc:236-241 | every pair training line has a model of two classes for its tag |
| EmbeddingSpec.FieldsPlain | embedding.cc:62-65 | no field of a read line holds a tab or a stop byte |
| EmbeddingSpec.EvalExampleFrom | embedding.cc:171-214 | a 4-field cls line with a non-negative label whose text resolves to ids gives a cls example keyed by tag and label; a 5-field pair line with a non-negative label whose two sides resolve gives a pair example; any other line gives none (both directions) |
| EmbeddingSpec.EvalLines | embedding.cc:171-215 | one evaluation entry per line of the file |
| EmbeddingSpec.PairSidesAlike | embedding.cc:199-205 | as written, both sides of every loaded pair example are the same ids |
| EmbeddingSpec.SecondSideLost | embedding.cc:199-205 | when the two sides of a pair line resolve differently, the as-written example loses the second side that the corrected one keeps |
| EmbeddingSpec.SecondSideLostExample | embedding.cc:203 | the line `pair t 1 a b` with `a` and `b` resolving to different ids shows the lost side |
| EmbeddingSpec.EvalKey | embedding.cc:459-488 | a key is judged only when it splits into two fields and its label is non-negative |
| EmbeddingSpec.ClsOutcomes | embedding.cc:457-465 | the outcome of each cls example, in order, under its prediction |
| EmbeddingSpec.PairOutcomes | embedding.cc:484-491 | the outcome of each pair example, in order, predicting 1 when its score exceeds 0.5 |
| EmbeddingSpec.ScoreCounts | embedding.cc:466-500 | a tag is in the result exactly when it has a judged example, its two counts sum to its judged examples and the second counts the right ones |
| EmbeddingSpec.KeyParses | embedding.cc:188 | a key built from a plain tag and a non-negative label reads back as that tag and label |
| EmbeddingSpec.LoadedClsJudged | embedding.cc:177-190 | every loaded cls example with a non-negative prediction is judged under its line's tag, right exactly when the prediction equals the line's label |
| EmbeddingSpec.LoadedPairJudged | embedding.cc:191-213 | every loaded pair example is judged under its trimmed tag, right exactly when (score > 0.5) matches the label |
| EmbeddingSpec.PairKeyJudged | embedding.cc:486-500 | a pair key of a plain tag and a non-negative label is judged under that tag |
| EmbeddingSpec.PredictedCls | embedding.cc:395-407 | a rewritten cls line has five fields: kind, tag, the prediction or the label, the score or "-1", then the text |
| EmbeddingSpec.PredictedPair | embedding.cc:415-431 | a rewritten pair line keeps every field but the label, which holds the score or "-1" |
| EmbeddingSpec.FiveFieldsBack | embedding.cc:408-436 | five plain fields joined with a tab after each and trimmed are cut back into the same five fields |
| EmbeddingSpec.PredictClsFields | embedding.cc:386-413 | Predict(line, res) turns a 4-field cls line into exactly the five rewritten fields |
| EmbeddingSpec.PredictPairFields | embedding.cc:414-437 | Predict(line, res) turns a 5-field pair line into its fields with the label replaced |
| Embedding.AddVocab | embedding.cc:17-42 | a counted text adds its words with subwords to the word table and its n-grams to the phrase table, and each counter grows by the number added; a blank text, or one of a cls, skip or pair line outside [minlen, maxlen] words, changes nothing |
| Embedding.VocabLine | embedding.cc:60-108 | the word and phrase tables after one training line stay well formed |
| Embedding.VocabPass | embedding.cc:60-117 | the tables after every line of the training file stay well formed |
| Embedding.Embedding.constructor | embedding.cc:44-59 | the tag maps and the evaluation examples start empty |
| Embedding.Embedding.CountLine | embedding.cc:61-103 | one training line is read into its fields and kind, and the tag maps become those after that line |
| Embedding.Embedding.CountPair | embedding.cc:70-81 | the pair branch records the tag and counts its key |
| Embedding.Embedding.CountCls | embedding.cc:82-103 | the cls branch raises the tag's largest label and counts its key once |
| Embedding.Embedding.TrainLine | embedding.cc:61-108 | one line: its kind and tag maps, then AddVocab on its non-empty text unless only counting |
| Embedding.Embedding.LoadTrainVocab | embedding.cc:44-149 | the tag maps are the tally of the kinds of all lines, the line count is recorded, and unless only counting the word and phrase tables are those after every line's AddVocab |
| Embedding.Embedding.InitModel | embedding.cc:221-243 | the class counts of the models are those of EmbeddingSpec.InitModel on the tag maps and the word table's row count |
| Embedding.Embedding.ClsClassCounts | embedding.cc:228-235 | each cls tag gets its largest label plus one classes; none when a tag's count would be 1 |
| Embedding.Embedding.PairClassCounts | embedding.cc:236-241 | each pair tag gets 2 classes |
| Embedding.Embedding.LoadEvalExample | embedding.cc:156-219 | nothing changes when cls and pair are both off; otherwise the cls examples become those of the file and its pair examples are appended to those held |
| Embedding.Embedding.StoreExamples | embedding.cc:161-212 | the cls examples are replaced, the pair examples appended |
| Embedding.Embedding.EvalCls | embedding.cc:453-479 | the (wrong, right) counts per tag of the cls examples under the given predictions |
| Embedding.Embedding.EvalPair | embedding.cc:481-503 | the (wrong, right) counts per tag of the pair examples, predicting 1 when the score exceeds 0.5 |
| Embedding.Embedding.Predict | embedding.cc:379-438 | the rewritten line of EmbeddingSpec.PredictLine: cls lines of four fields and pair lines of five are rewritten, any other line comes back unchanged |
| Embedding.ReadFields | embedding.cc:62-65 | the fields of a line, as EmbeddingSpec.LineFields |
| Embedding.ReadEvalLine | embedding.cc:172-214 | the evaluation entry of one line |
| Embedding.ReadEvalLines | embedding.cc:171-215 | the evaluation entries of every line, in order |
| Embedding.ReadClsExample | embedding.cc:177-190 | the cls branch of the evaluation loader |
| Embedding.ReadPairExample | embedding.cc:191-213 | the pair branch, its sides read from fields 3 and 4 |
| Embedding.JudgeCls | embedding.cc:459-476 | one step of EvalCls |
| Embedding.JudgePair | embedding.cc:486-501 | one step of EvalPair |
| Embedding.Judge | embedding.cc:467-500 | a new tag starts from (0, 0), then its wrong or its right count grows by one |
| Embedding.JoinFields | embedding.cc:408-435 | every field followed by a tab |

## Left out

- File and stream I/O. Every file is a sequence of lines handed in or handed back. This covers opening and asserting on files, `cerr` progress output, `ArgsConf::SetOutputDir`, `PrintArgs`, `PrintEvalInfo` and `PrintHashTable`. The line counters `word_counter` and `phrase_counter` only feed progress output, and `GetLine`'s lower-casing is part of how the fields of a line are read.
- Concurrency. `Embedding::Train` and `Embedding::TrainThread` (file seeks, worker loop, learning-rate decay, atomic counters) are not modelled; nor are the unsynchronised matrix writes. The per-line calls they make (UpdateSkip, UpdateCls, UpdatePair, RandomDiscard) are modelled one call at a time.
- The interactive front ends `main.cc`, `Embedding::Predict()` over standard input, `Distance`, `GetDistance`, `GetSentenceVec`, `HasWord` and `GetWordVec` of the coordinator, and `MainProcess`. They are loops over standard input and cosine arithmetic around operations modelled here.
- Floating-point values. Several computations are parameters instead:
  - the entries of the sigmoid and log tables (`exp`, `log`);
  - `sqrt`, `pow` and the discard rate formula;
  - the copy count of a negative-table entry;
  - `expf` in the ranking;
  - the phrase cohesion score, in part: it is computed over `real` with the score function as a parameter.

  Only indices, shapes, frames and orderings are proved about them. Float rounding is not modelled: `real` is exact.
- The gradient arithmetic of `SoftMax` and `UpdateBatch`. The model records which updates happen (outputs, positives, drawn negatives, loss events) but not the vectors they add. `Model::PredictPair` and the coordinator's `PredictCls`/`PredictPair` wrappers produce a float score or label. Here that score or label is an input to EvalCls, EvalPair and Predict(line, res).
- Random sources. These become explicit inputs:
  - the `minstd_rand` and `uniform_real_distribution` draws are the input sequences `draws` or streams `draw`;
  - `shuffle` of the negative table is not modelled (what the table holds is proved before the shuffle);
  - `RandomMask` and `GetRandFloat` are left out, because they only feed dropout masks and the random matrix initialisation, which is a parameter.
- `Model::Save` and `Model::Load` only compose the layer Save/Load functions. Those are modelled, but the composition is not. `Embedding::Save`, `SaveMap`, `LoadMap` and `Load` write and read the tag maps and call the same layer and Lexicon encodings. Their file layout is not modelled.
- The chain at the end of LoadTrainVocab (embedding.cc:118-148) is not modelled as one method. Each of its steps (Rebuild of the two tables, FilterPhraseFromNgram, CombineWordVec, InitDiscardTable) is modelled and proved as its own operation.
- HashTableStore.LoadSave: the Lexicon's Save and Load are modelled on the table's value, not as methods of the class. The round trip is proved for tables whose words are clean (trimmed, tab-free, no capitals) and whose frequencies are integral and non-negative. Frequencies are `int` throughout the model, not `float`.
- HashTableSpec.Probe: a probe the source would run forever, because every slot is held by another word, is `None` instead of non-termination. Callers that need a result require a free slot.
- InputLayer.InputLayer.Load: `row_ * col_` is computed in 32 bits in the source (layers/inputlayer.cc:195), and rows past `row_` are written before the line count is checked. The model reads into a fresh matrix of the file's shape and reports the failure instead.
- OutputLayer.OutputLayer.Load: the same holds for the output layer: `row_ * col_` is computed in 32 bits (layers/outputlayer.cc:70), and rows are written before the count check (layers/outputlayer.cc:90). The model reads into a fresh matrix of the file's shape and reports the failure instead.
- HashTableStore.Load: a file whose capacity header exceeds the constructed index is refused. In the source, probing modulo that capacity indexes past `wordidx_`, which the model does not follow. A smaller capacity is loaded into a table of that capacity, because the slots past it are never probed.
- Embedding.Embedding.LoadEvalExample: the id lookup of each text is the parameter `resolve`. It stands for the input layer's `GetIdxVec`, which is modelled as InputLayer.InputLayer.GetIdxVec.
- Integer widths. `atoi` and `atof` are total functions without overflow (`StringToNumber` always succeeds). The `uint64_t` counters and `int32_t` labels are unbounded, except where wrap-around matters: the hash and the generator (modulo 2^32 and 2^64), the unsigned row guard of UpdateData, and the unsigned left-window comparison.
- StringSplit compares each `char` with `EOF`, so it stops at the first byte 0xFF. The model keeps that: fields are cut from the bytes before the first such byte.
- Memory-management defects (`delete` on `new[]`, the leaked `data_` in Load) are not behaviour and are not modelled.

## Findings

| source | as written | input that shows it | evidently intended | confidence | as-written member | corrected member |
|---|---|---|---|---|---|---|
| model.cc:206-220 | InitLog fills slots 0..512 of a 512-slot table, and GetLog(x) reads slot `int(x*512)`, which is 512 for x = 1 | GetLoss of a sure prediction: a score above 8 for a positive label makes the sigmoid 1, and GetLog(1) reads slot 512 | a table of 513 slots, as the sigmoid table has | not executed | TrainerSpec.LogAsWritten, TrainerSpec.LogTableOverflow | TrainerSpec.Log, TrainerSpec.LogAgrees, TrainerSpec.LogMonotone |
| model.cc:356 | the left window loop tests `j >= i - lbound` with unsigned operands, so a radius larger than `i` wraps and the loop takes nothing | idx [5, 7], i = 1, radius 2: no left neighbour is taken, though position 0 is in the window | signed arithmetic: take the kept positions left of `i`, as the right loop does | not executed | TrainerSpec.LeftAsWritten, TrainerSpec.LeftWindowWraps, TrainerSpec.LeftAsWrittenEmpty | Trainer.LeftWindow, TrainerSpec.PickIsKeptPrefix |
| utils/hashtable.cc:302-306 | the unboosted RandomDiscard(words) compares the draw of the `i`-th word with `discard_table_[i]`, the rate of row `i` rather than of the word's row | a sentence whose words sit at rows 1 and 0, rates [2, 0], draws [0.5, 0.5]: the always-dropped word is kept and the always-kept word dropped | `discard_table_[word_idx_vec[i]]`, as the id form does | not executed | HashTableDiscard.MarkByPosition, HashTableDiscard.PositionKeyedRates, HashTableDiscard.ByPositionExample | HashTableDiscard.MarkRows, HashTableDiscard.MarkRowsKeeps, HashTableDiscard.ByRowExample |
| utils/hashtable.cc:295 | the boosted RandomDiscard(words) reads `wordvec_[word_idx_vec[i]]` even when the word is unknown and its entry is -1 | a boosted call on a sentence holding a word not in the table | skip entries that are already -1 | not executed | HashTableDiscard.MarkBoostedAsWritten, HashTableDiscard.MarkBoostedReadsMinusOne, HashTableDiscard.UnknownWordReadsBeforeRows | HashTableDiscard.UnknownWordStaysMinusOne, HashTableDiscard.MarkRowsBoostedDefined |
| utils/hashtable.cc:151-176 | AddWord probes the new word's slot before its subwords are inserted, and writes the word into that slot afterwards, over a piece that may have taken it | AddWord("a") with subwords on an empty table of 5 slots and subngram 2: the piece "<a" takes slot 0, then "a" overwrites it; 3 rows, 2 occupied slots | probe for the word's slot after its pieces are in | not executed | HashTableFinding.StaleSlotDropsRow, HashTableFinding.StaleSlotLosesPiece | HashTableSpec.AddNew, HashTableFinding.PlaceKeepsIndex, HashTableFinding.PlaceKeepsPiece |
| embedding.cc:90-101 | a cls line that introduces its tag seeds its key's count with 1, then the count is incremented again | the one-line file `cls t 0 x`: the key `t\t0` counts 2 | each line counted once | not executed | EmbeddingSpec.TagLineAsWritten, EmbeddingSpec.ClsCountsAsWritten, EmbeddingSpec.OneClsLineCountedTwice | EmbeddingSpec.TagLine, EmbeddingSpec.TallyCounts |
| embedding.cc:203 | LoadEvalExample reads the second side of a pair from `parts[3]`, the same field as the first | `pair t 1 a b` with `a` and `b` resolving to different ids: both sides of the example are `a` | `parts[4]`, as TrainThread and Predict(line, res) read it | not executed | EmbeddingSpec.EvalExampleAsWritten, EmbeddingSpec.PairSidesAlike, EmbeddingSpec.SecondSideLost, EmbeddingSpec.SecondSideLostExample | EmbeddingSpec.EvalExample, Embedding.Embedding.LoadEvalExample |
| layers/inputlayer.cc:87-94 | GetLayerByIdxs starts its divisor at the list length and adds one per taken id, so the mean is divided by about twice the count | a single in-range id with no discard: its row comes back halved | divide by the number of taken rows | not executed | InputLayerSpec.PooledAsWritten, InputLayerSpec.PooledAsWrittenHalves | InputLayerSpec.Pooled, InputLayerSpec.PooledOneRow, InputLayerSpec.PooledTwoRows |
