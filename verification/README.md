# FacePunch core in Dafny

This project models the core of FacePunch, a desktop attendance tool that
recognises faces, in three parts.

- **The face identity index** (`FaceIndex`):
  - a label → name map;
  - a label → vector store (an hnswlib graph in the C++ code);
  - a label counter `nextId`.

  The index supports `add`, top-1 `search` with a similarity threshold, and
  vector normalisation. It persists to a comma-separated text file through
  `saveToDisk` and `loadFromDisk`.
- **Configuration** (`AppConfig::loadFromEnv`). It reads four settings from
  the environment, falls back to the current value when a variable is missing
  or unparsable, and replaces each out-of-range value with a fixed default.
- **The detector's tensor plumbing**:
  - copying the 128×128 RGB image into an HWC float buffer;
  - transposing that buffer into CHW order;
  - decoding the network's flat 16-values-per-record box tensor into
    `FaceDetection`s, dropping boxes smaller than 5 pixels.

Everything is an immutable value, and every operation returns the new state.
Code the model cannot see is a function-valued parameter:

- the square root;
- the nearest-neighbour backend's distance;
- float printing and `std::stof`;
- the image's pixel colours.

Modules, one per file (plus `Wrappers` for `Option`):

| module | file | models |
|---|---|---|
| `EmbeddingMath` | embedding_math.dfy | `normalize`, distance → similarity |
| `FaceIndex` | face_index.dfy | index state, `add`, `search`, the invariant |
| `StoreFormat` | store_format.dfy | line format, `std::getline` splitting |
| `IndexStore` | index_store.dfy | `saveToDisk`, `loadFromDisk`, save/load round trip |
| `Config` | config.dfy | `getIntEnv` (with `std::stoi`), `getFloatEnv`, `loadFromEnv`, defaults |
| `Detector` | detector.dfy | HWC fill, HWC → CHW transpose, output decoding |

Edge cases the model keeps as the code has them:

- Labels are issued from 0 (`nextId` starts at 0 and `add` uses it before incrementing).
- A vector whose norm is 0 normalises to all zeros and is stored like any other.
- A value that `std::stof` cannot parse during loading throws out of the load
  loop. The index has already been cleared, and the entries added before that
  line stay in it (`Aborted`).
- An unopenable file on load returns before the clearing, so the index keeps
  its previous contents.

## Model

| member | source | states |
|---|---|---|
| EmbeddingMath.Normalize | src/FaceIndex.cpp:17-27 | same length as the input; each output component times the norm gives back the input component; all zeros when the norm is not positive |
| EmbeddingMath.NormalizeUnit | src/FaceIndex.cpp:16-27 | a non-zero vector normalises to unit length: the squares of the result sum to 1 (given an exact square root) |
| EmbeddingMath.SumSqScaled | src/FaceIndex.cpp:19 | when every component's square scales by the same factor, so does the sum of squares the norm is taken from |
| EmbeddingMath.NormalizeZero | src/FaceIndex.cpp:18-26 | a vector whose sum of squares is 0 normalises to all zeros (given sqrt(0) = 0) |
| EmbeddingMath.RootPositive | src/FaceIndex.cpp:20-24 | a non-zero vector takes the dividing branch when the root is exact |
| EmbeddingMath.Similarity | include/FaceIndex.hpp:20-21 | the similarity `1 - d*d/2` is at most 1 for every reported distance |
| EmbeddingMath.SimilarityAntitone | src/FaceIndex.cpp:46-48 | a nearer neighbour is never less similar |
| FaceIndex.New | include/FaceIndex.hpp:30-32 | a new index is empty and valid, and issues label 0 first |
| FaceIndex.ValidSize | include/FaceIndex.hpp:31-32 | in a valid index the number of names and of stored vectors both equal `nextId` |
| FaceIndex.StoreValid | src/FaceIndex.cpp:33-35 | storing a `dim`-long vector under `nextId` and advancing the counter keeps the invariant |
| FaceIndex.Add | src/FaceIndex.cpp:30-36 | name and normalised vector stored under the old `nextId`; counter +1; no other label gains, loses or changes an entry; the invariant is preserved |
| FaceIndex.AddKeepsEntries | src/FaceIndex.cpp:33-35 | every entry already stored keeps its name and vector after an add |
| FaceIndex.AddIssuesFreshLabels | src/FaceIndex.cpp:33-35 | two successive adds issue distinct labels, and the first add's name survives the second |
| FaceIndex.Nearest | src/FaceIndex.cpp:42-45 | the exact top-1 answer: none iff nothing is stored; otherwise a stored label no farther from the query than any other |
| FaceIndex.Search | src/FaceIndex.cpp:39-51 | empty index gives ("", 0); otherwise the nearest label's similarity, with its name exactly when the similarity reaches the threshold |
| FaceIndex.SearchIsMostSimilar | src/FaceIndex.cpp:42-48 | the reported similarity is at least that of every stored vector |
| FaceIndex.SearchNameNeedsThreshold | include/FaceIndex.hpp:22 | at the default threshold a name is reported only with similarity ≥ 0.7 |
| FaceIndex.SearchEmpty | src/FaceIndex.cpp:43 | searching a fresh index gives ("", 0) for any threshold |
| StoreFormat.ReadUntil | src/FaceIndex.cpp:84-88 | `getline` fails only on empty input; otherwise it returns a delimiter-free field and a strictly shorter rest, which rebuild the input |
| StoreFormat.ReadUntilPrefix | src/FaceIndex.cpp:84 | text made of a delimiter-free prefix, the delimiter and a rest reads as exactly that prefix and that rest |
| StoreFormat.ReadUntilWhole | src/FaceIndex.cpp:88 | delimiter-free non-empty text is read whole |
| StoreFormat.SplitLines | src/FaceIndex.cpp:81 | the lines of a file contain no newline |
| StoreFormat.SplitLinesCons | src/FaceIndex.cpp:68 | a newline-free body followed by a newline is split off as one line |
| StoreFormat.ReadFields | src/FaceIndex.cpp:86-88 | at most `dim` comma-free fields are read from a line |
| StoreFormat.ParseLine | src/FaceIndex.cpp:82-88 | only an empty line has no name; the name has no comma; at most `dim` fields follow it |
| StoreFormat.JoinFields | src/FaceIndex.cpp:67 | the values' text is empty iff there are no values, and otherwise starts with a comma |
| StoreFormat.LineBodyNoNewline | src/FaceIndex.cpp:66-68 | a saved line body holds no newline when the name has none |
| StoreFormat.ReadFieldsOfJoin | src/FaceIndex.cpp:86-88 | reading `n` fields back from the text of `n` tokens yields those tokens |
| StoreFormat.LineRoundTrip | src/FaceIndex.cpp:66-88 | a line saved from a plain name and `dim` tokens parses back to that name and those tokens |
| StoreFormat.EmptyLineDropped | src/FaceIndex.cpp:84 | with `dim` 0 an empty name saves as an empty line, which loading skips |
| StoreFormat.NameCutAtComma | src/FaceIndex.cpp:84 | a name with a comma is read back cut at its first comma |
| IndexStore.SaveToDisk | src/FaceIndex.cpp:53-56 | nothing is written iff the file cannot be opened; otherwise the text is the entries in the given visit order of the name map; the index is never modified |
| IndexStore.VisitOrderOfValid | src/FaceIndex.cpp:56-62 | in a valid index every label the walk visits has a stored vector, so no entry is skipped, and the walk visits `nextId` labels |
| IndexStore.AscendingIsVisitOrder | src/FaceIndex.cpp:56 | ascending label order is one of the orders the walk may take |
| IndexStore.SaveWritesOneLinePerEntry | src/FaceIndex.cpp:56-69 | the saved file splits into one line per visited entry, in visit order |
| IndexStore.SavedLineShape | src/FaceIndex.cpp:65-68 | the j-th saved line is the j-th visited entry's name followed by exactly `dim` value tokens |
| IndexStore.ParseValues | src/FaceIndex.cpp:86-89 | the values parse iff every field parses, and each value is its field's parse |
| IndexStore.ParseTokens | src/FaceIndex.cpp:89 | when `stof` reads back each of a vector's printed values, the vector's tokens parse back to the vector |
| IndexStore.Pad | src/FaceIndex.cpp:85-89 | a short line's vector keeps the parsed values and is zero-filled to `dim` |
| IndexStore.LoadLines | src/FaceIndex.cpp:80-92 | the load loop keeps the dimension and the invariant |
| IndexStore.LoadFromDisk | src/FaceIndex.cpp:72-93 | an unopenable file leaves the index as it was; otherwise the result is valid with the same `dim` |
| IndexStore.LoadReplacesState | src/FaceIndex.cpp:75-79 | the loaded index does not depend on the previous entries or counter |
| IndexStore.LoadSavedLine | src/FaceIndex.cpp:81-91 | loading the j-th saved line adds the j-th visited entry under label j |
| IndexStore.LoadSavedLinesFrom | src/FaceIndex.cpp:81-92 | loading the saved lines from the j-th on, after the first j entries, ends with every visited entry loaded |
| IndexStore.LoadLinesSkip | src/FaceIndex.cpp:84 | an empty line is skipped without adding anything |
| IndexStore.LoadLinesAbort | src/FaceIndex.cpp:89 | a value that does not parse aborts the load with the entries added so far |
| IndexStore.LoadLinesStep | src/FaceIndex.cpp:82-91 | a parsed line is added, then the rest of the file is loaded |
| IndexStore.LoadLinesOutcome | src/FaceIndex.cpp:81-92 | the load finishes normally iff every non-empty line's values parse |
| IndexStore.LoadLinesKeeps | src/FaceIndex.cpp:91 | the load loop never alters an entry already present |
| IndexStore.LoadLinesCount | src/FaceIndex.cpp:81-92 | a completed load advances the counter once per non-empty line |
| IndexStore.LoadLinesHead | src/FaceIndex.cpp:91 | the first non-empty line is stored under the current counter, with its parsed and normalised vector |
| IndexStore.SavedLineParses | src/FaceIndex.cpp:64-89 | each saved line parses back to its entry's name and stored vector |
| IndexStore.SaveLoadGivesReordered | src/FaceIndex.cpp:53-92 | loading the saved file gives the index that adds the entries again in visit order |
| IndexStore.SaveLoadRoundTrip | src/FaceIndex.cpp:53-92 | for any visit order: the load completes with the same counter, and label j holds the name and the re-normalised vector of the j-th entry visited |
| IndexStore.AscendingRoundTrip | src/FaceIndex.cpp:53-92 | when the walk happens to visit labels in ascending order, the load gives the same names under the same labels, the same label set, and each vector re-normalised |
| Config.StoI | src/config.cpp:16 | `std::stoi` returns only values in the 32-bit `int` range |
| Config.StoIRoundTrip | src/config.cpp:16 | every `int` written in decimal reads back as itself |
| Config.StoIIgnoresPadding | src/config.cpp:16 | any run of leading white space and trailing non-digit text do not change the value read |
| Config.GetIntEnv | src/config.cpp:13-19 | fallback when the variable is unset or does not parse, the parsed value otherwise |
| Config.GetFloatEnv | src/config.cpp:5-11 | fallback when the variable is unset or does not parse, the parsed value otherwise |
| Config.LoadFromEnv | src/config.cpp:21-33 | result in range; in-range parsed values kept verbatim; out-of-range values become 25 / 0.5 / 0.3; `modelPath` changes only for a set, non-empty `MODEL_PATH` |
| Config.DefaultsInRange | include/config.h:6-9 | the defaults lie in the ranges `loadFromEnv` enforces |
| Config.DefaultsFixedPoint | include/config.h:6-9 | with an empty environment a default-constructed config is unchanged |
| Config.UnsetKeepsValid | src/config.cpp:22-32 | with the variables unset, an in-range config is unchanged and a bad `maxDetections` becomes 25 |
| Config.LoadFromEnvIdempotent | src/config.cpp:21-33 | applying `loadFromEnv` twice with the same environment equals applying it once |
| Config.ZeroThresholds | src/config.cpp:25-29 | a confidence threshold of 0 is rejected while an IoU threshold of 0 is kept |
| Config.MaxDetectionsFromText | src/config.cpp:22-23 | a `MAX_DETECTIONS` in 1..1000 is taken as written; any other `int` yields 25 |
| Detector.TensorSizeIsProduct | src/FaceDetector.cpp:43-54 | both buffers hold 3 × 128 × 128 values |
| Detector.HwcTensorAt | src/FaceDetector.cpp:44-51 | slot `(y*128+x)*3+c` holds channel c of pixel (x, y) divided by 255 |
| Detector.FillHwc | src/FaceDetector.cpp:43-51 | the filled buffer has 49152 values, channel c of pixel (x, y) at `(y*128+x)*3+c` |
| Detector.SourceTargetInverse | src/FaceDetector.cpp:55-61 | the CHW→HWC and HWC→CHW index maps are inverse permutations |
| Detector.TransposeIsBijection | src/FaceDetector.cpp:55-61 | distinct CHW slots read distinct HWC slots, so every slot is written exactly once |
| Detector.TransposeAt | src/FaceDetector.cpp:58 | `chw[c*16384 + h*128 + w] == hwc[(h*128+w)*3 + c]` |
| Detector.TransposeRoundTrip | src/FaceDetector.cpp:53-61 | transposing and transposing back restores the buffer, in both orders |
| Detector.ToChw | src/FaceDetector.cpp:53-61 | the loop fills every CHW slot `c*16384 + h*128 + w` with HWC slot `(h*128+w)*3 + c` |
| Detector.RecordLayoutRoundTrip | src/FaceDetector.cpp:127-135 | record i is the 16 values at offset 16·i, in the order y1, x1, y2, x2, then six (x, y) landmarks |
| Detector.ReadRecordLocal | src/FaceDetector.cpp:127 | record i depends only on the 16 values at offset 16·i |
| Detector.ScaleInverse | src/FaceDetector.cpp:140-166 | x-coordinates are scaled by the width, y-coordinates by the height, and the confidence is kept |
| Detector.CandidateOfRecord | src/FaceDetector.cpp:127-166 | each candidate decodes exactly its own 16 values; confidence is its score, or 1 without a score output |
| Detector.DecodeUpTo | src/FaceDetector.cpp:126-178 | the decoded list is no longer than the records read, and holds only boxes at least 5 × 5 pixels |
| Detector.ReportedIndicesIncreasing | src/FaceDetector.cpp:126-177 | output records appear in raw record order |
| Detector.ReportedIndicesExact | src/FaceDetector.cpp:145-146 | a record is reported iff its scaled width ≥ 5 and its scaled height ≥ 5 |
| Detector.DecodeFollowsIndices | src/FaceDetector.cpp:126-177 | output k is the candidate at the k-th reported index |
| Detector.DecodeComplete | src/FaceDetector.cpp:145-177 | every record that passes the size filter is in the output |
| Detector.DecodeStep | src/FaceDetector.cpp:145-177 | one more record extends the output by that record exactly when it passes the filter |
| Detector.Decode | src/FaceDetector.cpp:115-180 | the loop reads `num_boxes` records (`shape[1]`, or 1 for rank 1); the output has at most `num_boxes` records, all at least 5 × 5 |

## Left out

- hnswlib internals: the graph, `label_lookup_` and `getDataByInternalId`.
  - The store is an exact label → vector map.
  - `searchKnn(q, 1)` is an exact scan over an abstract distance.
  - The claimed identity between L2 distance and cosine similarity is not proved.
- Floating point:
  - `std::sqrt` and float rounding in `normalize`: the square root is a parameter.
  - The 6-significant-digit print precision of `saveToDisk`: printing is a parameter. The round trip is exact only for stored values that `std::stof` reads back from their printed text. `PrintingExample` shows that this hypothesis can be met.
  - Config defaults: `0.5f` is exact, but `0.3f` is stored as the nearest float, about 0.30000001. The model uses 0.3.
  - Pixel values are divided by 255 exactly.
  - NaN from `std::stof` is not modelled. It would pass the range checks in `loadFromEnv`, since every comparison with NaN is false.
- Order of `saveToDisk`: the C++ code walks an `unordered_map`, whose order is unspecified. The visit order is a parameter: any order with each named label once. After a reload, label j holds the j-th entry visited, so labels are kept only when the walk is ascending (`AscendingRoundTrip`).
- Index capacity: the 10000-entry limit of the hnswlib graph is a precondition of `Add`. The load functions require that the entries already stored plus the file's non-empty lines (the lines that are added) fit in it. Exceeding it, which throws in hnswlib, is not modelled.
- FaceIndex.SearchNameNeedsThreshold: the default threshold is the real 0.7. In the C++ code the default argument `0.7` is a double converted to the `float` parameter, about 0.69999999, so a similarity between that float and 0.7 is reported there but not in the model.
- FaceIndex.Add: requires a vector of exactly `dim` values. The C++ code does not check this: hnswlib copies `dim` floats from the vector's data, truncating a longer vector and reading past the end of a shorter one.
- FaceIndex.Search: requires a query of exactly `dim` values, for the same reason as `Add`.
- The `std::stof` exception during loading is the `Aborted` outcome. Exception propagation beyond `loadFromDisk` is not modelled.
- IndexStore.LoadLines: requires that the entries present plus the lines to add fit the capacity. It states validity, the loop steps and their consequences. It does not state, as one closed formula, that the j-th non-empty line is stored under label `nextId + j`. That follows by repeating LoadLinesStep and LoadLinesHead, but it is not written out as a lemma.
- Config.GetFloatEnv: `std::stof` is a parameter (None where it throws). `std::stoi`, by contrast, is modelled on decimal text. Hexadecimal or octal prefixes are not accepted, and `std::stoi` does not accept them in base 10 either.
- Detector.Decode: it requires that every read stays inside the output tensors, along with a rank of at least 1 and a non-negative `shape[1]`. The C++ code does not check these; a violation there reads out of bounds or wraps the `size_t`.
- Detector.FillHwc: the resize to 128 × 128 and the RGB888 conversion (`QImage`) are outside the model. The image is a pixel function on the resized picture.
- ONNX Runtime session set-up, input tensor creation and inference are external calls.
- `qDebug` logging, the UI (`MainWindow`, `SettingsDialog`), `FaceEmbedder`, and `main` are outside the model.
- The recognition cache, attendance debouncing, and delete/rename have no implementation in the repository.
