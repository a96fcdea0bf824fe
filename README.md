# Dafny model of the WMCore operator scripts' deterministic core

This project models, in Dafny, the deterministic pieces of a set of CMS
workflow-management operator scripts:

- **the storage-tree walk** `_lsTree` of `bin/MSStandalone/MSUnmerged/init.py`.
  It lists a directory tree in depth-first pre-order over a gfal2 context.
  Here that context is an abstract storage: two maps giving the answer
  `stat` and `listdir` return for each path.
- **`findPfnPrefix`**, also in `init.py`. It picks the PFN prefix a site's
  `storage.json` gives for a protocol. The files that can be opened and parsed
  are a map from path to parsed document.
- **the `twEnclosed` pretty printer** in two variants:
  - the `reCall` variant of `twrapper.py`, copied unchanged into
    `couchdbWfInfo.py` (`TwPrinter`);
  - the newline-collapsing variant of `fetchACDCs.py` (`AcdcPrinter`).

  `TextWrapper.wrap` is left uninterpreted: it is a function parameter.
- **couchdbWfInfo.py** (`WfInfo`):
  - the decision logic of `handleReqMgr`;
  - the request and workload-summary addresses;
  - the request names read from a file;
  - the report `main` prints.
- **fetchACDCs.py** (`FetchAcdcs`):
  - the address and selection of `getACDC`;
  - the defaults of `main`;
  - `main`'s loop collecting truthy `TotalEstimatedJobs` values into the sample document.

Parsed JSON is the datatype `PyJson.Json`, where a dict is the sequence of its
items in iteration order. `PyJson` also models the Python built-ins the scripts
apply to JSON values, with the exceptions they raise on values of the wrong kind:
`str()` of a scalar, truthiness, `x[k]`, `in` and iteration.

HTTP replies are the parameter `fetch`, a function from address to parsed
document. Printed text and written documents are returned as values.

Modules:

- `PyJson`: JSON values and Python built-ins;
- `KeyOrder`: `sorted(obj.items(), key=lambda t: t[0])`;
- `TwPrinter` and `AcdcPrinter`: the two printers;
- `StorageWalk`: `_lsTree`;
- `StorageConfig`: `findPfnPrefix`;
- `Services`: the `"https://" + host` defaults;
- `WfInfo` and `FetchAcdcs`: the two scripts.

## Model

| member | source | states |
|---|---|---|
| StorageWalk.Walk | bin/MSStandalone/MSUnmerged/init.py:71-125 | Reference definition of the walk. WalkPaths, WalkRaisedFrom, SubtreeFollowsDirectory and HaltIsPrefix state its properties, and LsTree is proved equal to it. |
| StorageWalk.WalkEntries | bin/MSStandalone/MSUnmerged/init.py:102-125 | Reference definition of the loop over one directory's entries. EntriesPaths, EntriesRaisedFrom, EntriesAppend, SkippedContributesNothing, EntriesSubtree and HaltAtFirstFile state its properties. |
| StorageWalk.LsTree | bin/MSStandalone/MSUnmerged/init.py:71-125 | The loop-and-recursion walk equals the reference `Walk`. A base whose stat fails (ENOENT or any other code) gives `[]`. A base that is not a directory gives `[base]`. A listdir failure on the slashed base is raised with its code and path. |
| StorageWalk.Slashed | bin/MSStandalone/MSUnmerged/init.py:92-93 | The listed directory is the base itself when it already ends in `/`, and the base followed by `/` otherwise. |
| StorageWalk.WalkPaths | bin/MSStandalone/MSUnmerged/init.py:92-93 | For listings whose names contain no `/`: every listed path extends the slashed base, is strictly longer, has a successful stat, and never ends in `/.` or `/..`. |
| StorageWalk.EntriesPaths | bin/MSStandalone/MSUnmerged/init.py:102-121 | For listings whose names contain no `/`, the same holds for the paths the loop over a directory's entries lists. |
| StorageWalk.ChildBelow | bin/MSStandalone/MSUnmerged/init.py:103-105 | A non-dot child name whose stat succeeds gives a path below its directory. |
| StorageWalk.WalkRaisedFrom | bin/MSStandalone/MSUnmerged/init.py:92-100 | The walk raises IndexError only for the empty base (`baseDirPfn[-1]`). A raised GError is exactly the failing listdir answer for the path it names, so errors are propagated, never invented or swallowed. |
| StorageWalk.EntriesRaisedFrom | bin/MSStandalone/MSUnmerged/init.py:96-119 | The loop over entries raises only a nested listdir GError, with that path's own code. |
| StorageWalk.EntriesAppend | bin/MSStandalone/MSUnmerged/init.py:102-125 | Without halting, walking the entries `a + b` is walking `a`, then `b`: children appear in listdir order. |
| StorageWalk.SkippedContributesNothing | bin/MSStandalone/MSUnmerged/init.py:103-115 | A dot entry, or one whose stat fails, can be removed from the listing without changing the result. |
| StorageWalk.SubtreeFollowsDirectory | bin/MSStandalone/MSUnmerged/init.py:117-119 | Pre-order: every directory in the listing is immediately followed by the whole listing of its own subtree. |
| StorageWalk.EntriesSubtree | bin/MSStandalone/MSUnmerged/init.py:117-119 | The same pre-order property for the loop over a directory's entries. |
| StorageWalk.FileCut | bin/MSStandalone/MSUnmerged/init.py:120-124 | The cut ends at the first file child, and it is non-empty with a file last exactly when some child is a file. When no child is a file, the cut is the whole listing. |
| StorageWalk.HaltWithoutFile | bin/MSStandalone/MSUnmerged/init.py:120-124 | When no entry is a file, halting at the bottom changes nothing: the halted and full walks of the entries are equal. |
| StorageWalk.HaltAtFirstFile | bin/MSStandalone/MSUnmerged/init.py:119-124 | Halting at the bottom equals a non-halting walk of the entries up to and including the first file child. Subdirectories are walked without halting. |
| StorageWalk.HaltEndsAtFile | bin/MSStandalone/MSUnmerged/init.py:120-124 | An early halt that found a file child ends the listing with that file. |
| StorageWalk.HaltIsPrefix | bin/MSStandalone/MSUnmerged/init.py:120-124 | When the full walk succeeds, the halted walk succeeds too, and its listing is a prefix of the full one. |
| StorageWalk.Chain | bin/MSStandalone/MSUnmerged/init.py:119 | `extend` of a sub-listing: the first exception wins, otherwise the paths are concatenated. |
| StorageWalk.DeeperShrinks | bin/MSStandalone/MSUnmerged/init.py:119 | A recursive call is on a strictly longer existing path, so there are fewer paths below it. |
| StorageConfig.ConfigPath | bin/MSStandalone/MSUnmerged/init.py:146 | The storage description path starts with `/cvmfs/cms.cern.ch/SITECONF/`, then holds the site name, and ends with `/storage.json`. |
| StorageConfig.ConfigPathInjective | bin/MSStandalone/MSUnmerged/init.py:146 | Different sites never share a storage description path. |
| StorageConfig.PfnPrefix | bin/MSStandalone/MSUnmerged/init.py:143-158 | Reference definition of findPfnPrefix. PfnPrefixIsLastOffer states what it selects, and FindPfnPrefix is proved equal to it. |
| StorageConfig.Scan | bin/MSStandalone/MSUnmerged/init.py:150-156 | Reference definition of the loop over the protocol entries. ScanFindsLastOffer states what it returns. |
| StorageConfig.FindPfnPrefix | bin/MSStandalone/MSUnmerged/init.py:143-158 | The loop equals the reference selection `PfnPrefix`, including None for a missing file, an unusable `[0]['protocols']`, and an exception mid-loop that keeps the prefix found so far. |
| StorageConfig.LastOffer | bin/MSStandalone/MSUnmerged/init.py:150-154 | Reference selection: None exactly when no entry offers the protocol with a prefix. |
| StorageConfig.LastOfferIsLast | bin/MSStandalone/MSUnmerged/init.py:150-154 | The chosen entry offers the protocol, its prefix is the answer, and no later entry offers it. |
| StorageConfig.Readable | bin/MSStandalone/MSUnmerged/init.py:150-151 | Counts the leading entries for which `['protocol']` succeeds. The next entry raises. |
| StorageConfig.ScanFindsLastOffer | bin/MSStandalone/MSUnmerged/init.py:150-156 | The loop returns the last offering entry among those before the first raising one, or the prefix it started with. |
| StorageConfig.PfnPrefixIsLastOffer | bin/MSStandalone/MSUnmerged/init.py:143-158 | When every protocol entry names its protocol, findPfnPrefix is the prefix of the last entry offering `proto` with a prefix, and None if there is none. |
| KeyOrder.SortByKey | twrapper.py:37-39 | The sorted items are in ascending key order and a permutation of the dict's items. |
| KeyOrder.SortIgnoresInsertionOrder | twrapper.py:37-39 | Two orderings of the same dict sort to the same sequence. |
| KeyOrder.SortedFirstIsLeast | twrapper.py:37-39 | The first sorted key is at most every key of the dict. |
| KeyOrder.SortedUnique | twrapper.py:37-39 | There is only one sorted permutation of a dict's items. |
| KeyOrder.KeyLessTotal | twrapper.py:37-39 | Python's string order compares any two distinct keys. |
| KeyOrder.KeyLessTransitive | twrapper.py:37-39 | Python's string order is transitive. |
| TwPrinter.Enclosed | twrapper.py:29-55 | Output is empty exactly for an empty container at top level. Otherwise it ends in a newline. A nested container starts with a newline. An empty container is `''` at top level and `'\n'` nested. A scalar is `str(obj)` plus one newline. |
| TwPrinter.Entries | twrapper.py:43-46 | Empty exactly when the dict is empty, otherwise newline-terminated. |
| TwPrinter.Items | twrapper.py:51-52 | Empty exactly when the list is empty, otherwise newline-terminated. |
| TwPrinter.RenderIgnoresInsertionOrder | twrapper.py:37-39 | A dict prints the same whatever its insertion order. |
| TwPrinter.FirstEntry | twrapper.py:40-46 | A non-empty dict opens with its least key, laid out as: newline if nested, then the indentation plus four spaces, then the `''`-joined wrapped key, then `: `, then the value's nested dump. |
| TwPrinter.NewlineCount | twrapper.py:41-54 | Without newlines in scalars and wrapped keys, the output's newlines are the scalar leaves plus the nested containers. The top-level container does not count. |
| TwPrinter.EntriesNewlineCount | twrapper.py:43-46 | The newline count of a dict's entries is the leaves plus the containers among its values. |
| TwPrinter.ItemsNewlineCount | twrapper.py:51-52 | The newline count of a list's elements is the leaves plus the containers among them. |
| TwPrinter.IndentPerLevel | twrapper.py:42-50 | Every line after a newline starts with the indentation plus four spaces. So does a non-empty top-level container's first line. |
| TwPrinter.EntriesIndented | couchdbWfInfo.py:142-146 | Every line of a dict's entries starts with their indentation. |
| TwPrinter.ItemsIndented | couchdbWfInfo.py:150-152 | Every line of a list's elements starts with their indentation. |
| TwPrinter.PlainSorted | couchdbWfInfo.py:137-139 | Sorting keeps the items free of newlines. |
| AcdcPrinter.CollapseEnds | fetchACDCs.py:133 | `re.sub(r'(\n+)', '\n', s)` is never longer than `s`, and keeps its first and last characters. |
| AcdcPrinter.CollapseNoBlankLine | fetchACDCs.py:133 | The result never has two consecutive newlines. |
| AcdcPrinter.CollapseFixedPoint | fetchACDCs.py:133 | A string is unchanged by the collapse exactly when it has no two consecutive newlines. |
| AcdcPrinter.CollapseIdempotent | fetchACDCs.py:133 | Collapsing twice is collapsing once. |
| AcdcPrinter.CollapseKeepsText | fetchACDCs.py:133 | Only newlines are removed: the text without newlines is unchanged. |
| AcdcPrinter.CollapseTail | fetchACDCs.py:133 | Collapsing the tail first does not change the overall collapse. |
| AcdcPrinter.CollapseHead | fetchACDCs.py:133 | Collapsing the head first does not change the overall collapse. |
| AcdcPrinter.CollapsePlainHead | fetchACDCs.py:133 | A newline-free head is untouched by the collapse. |
| AcdcPrinter.Enclosed | fetchACDCs.py:107-134 | A dict or list output starts with a newline. |
| AcdcPrinter.Entries | fetchACDCs.py:118-121 | The entries' text is empty exactly when the dict has no items. |
| AcdcPrinter.Items | fetchACDCs.py:125-126 | The elements' text is empty exactly when the list is empty. |
| AcdcPrinter.Raw | fetchACDCs.py:107-134 | Reference dump with no substitution on the way. CollapseOnce proves the printer equals its single collapse. |
| AcdcPrinter.CollapseOnce | fetchACDCs.py:107-134 | Collapsing at every level equals building the whole uncollapsed dump and collapsing it once. |
| AcdcPrinter.NoBlankLineInDump | fetchACDCs.py:133 | The dump never has two consecutive newlines, so collapsing it again changes nothing. |
| AcdcPrinter.ScalarText | fetchACDCs.py:127-128 | When the wrapped text has no two consecutive newlines, a scalar prints as the `''`-join of the wrapped `str(obj)`, with no newline added. The per-call substitution also applies to a scalar's text. |
| AcdcPrinter.RenderIgnoresInsertionOrder | fetchACDCs.py:113-115 | A dict prints the same whatever its insertion order. |
| AcdcPrinter.ContainerLayout | fetchACDCs.py:112-126 | A non-empty dict or list starts with a newline and the indentation plus four spaces. A dict's first key is its least. |
| AcdcPrinter.FirstEntry | fetchACDCs.py:112-121 | A non-empty dict opens with a newline, the indentation plus four spaces, its least key wrapped and joined, and `: `. |
| AcdcPrinter.IndentPerLevel | fetchACDCs.py:116-126 | Without newlines in scalars, keys and the indentation, every line of a dict's or list's dump starts with the indentation plus four spaces, even after the collapse. |
| Services.ServiceUrl | couchdbWfInfo.py:192-193 | A truthy host gives `https://` followed by the host. An absent or empty host gives the default. |
| Services.ServiceUrlInjective | couchdbWfInfo.py:192-193 | Different hosts give different addresses. |
| WfInfo.RequestUrl | couchdbWfInfo.py:79 | The address is the request endpoint of the service followed by the request name. |
| WfInfo.SummaryUrl | couchdbWfInfo.py:104 | The address is the workload-summary endpoint followed by the request name. |
| WfInfo.UrlsIdentifyRequest | couchdbWfInfo.py:79-104 | The two endpoints never share an address, and each address names one request. |
| WfInfo.FirstPresent | couchdbWfInfo.py:86-93 | None exactly when no candidate is present. |
| WfInfo.FirstPresentIsFirst | couchdbWfInfo.py:86-93 | The value chosen is present, and every earlier candidate is absent. |
| WfInfo.InputDatasetPrecedence | couchdbWfInfo.py:86-93 | On a well-shaped record the if/elif chain gives the first present of top-level, `Task1` and `Step1` `InputDataset`, else None. |
| WfInfo.NestedIsMember | couchdbWfInfo.py:88-91 | `'T' in rec and 'InputDataset' in rec['T']` never raises on a well-shaped record, and yields the nested value. |
| WfInfo.HandleReqMgr | couchdbWfInfo.py:75-97 | A reply without `result[0][reqName]['RequestStatus']` raises. The outcome is `(None, None)` exactly when the status is one of the four skipped ones. Otherwise it is the record's own TotalInputLumis and OutputDatasets. |
| WfInfo.SkippedStatusGivesNothing | couchdbWfInfo.py:82-84 | A request in one of the four skipped statuses yields `(None, None)`. |
| WfInfo.ActiveWorkflowSummary | couchdbWfInfo.py:75-97 | Any other request yields its `TotalInputLumis` and `OutputDatasets`, with the input dataset chosen by precedence. |
| WfInfo.ReadLines | couchdbWfInfo.py:187 | `readlines()` gives non-empty lines. A newline occurs only as a line's last character, and every line but the last ends with one. |
| WfInfo.ReadLinesConcat | couchdbWfInfo.py:187 | Joining the lines gives back the file. |
| WfInfo.RStripNewlines | couchdbWfInfo.py:187 | `rstrip('\n')` gives a prefix that does not end in a newline, and removes only newlines. |
| WfInfo.StripAll | couchdbWfInfo.py:187 | Every line is stripped, in order. |
| WfInfo.RequestNames | couchdbWfInfo.py:187 | An empty file, and only an empty file, gives no request names. |
| WfInfo.RequestNamesPlain | couchdbWfInfo.py:187 | No request name read from a file contains a newline. |
| WfInfo.RequestNamesRoundTrip | couchdbWfInfo.py:186-187 | Writing names one per line and reading them back gives the same names. |
| WfInfo.ListRequests | couchdbWfInfo.py:176-190 | Both `-w` and `-i`, or neither of them truthy, is a usage error. A truthy `-w` is the one request. Otherwise the names are read from the `-i` file, or main stops because that file cannot be read. |
| WfInfo.ReqMgrUrl | couchdbWfInfo.py:193 | The request manager is `https://` followed by the `-r` host, defaulting to `https://cmsweb.cern.ch`. |
| WfInfo.ReportText | couchdbWfInfo.py:195-199 | Reference text of main's loop: one block per request, in list order. ReportOne, ReportAppend and ReportFramed state what it is. |
| WfInfo.ReportFramed | couchdbWfInfo.py:195-199 | The report is empty exactly when there are no requests. Otherwise it opens and closes with a rule line. |
| WfInfo.ReportAppend | couchdbWfInfo.py:195-199 | The report for `a + b` is the report for `a` followed by the report for `b`. |
| WfInfo.ReportOne | couchdbWfInfo.py:196-199 | One request's block is its workload-summary dump between two rule lines, as printed. |
| WfInfo.Report | couchdbWfInfo.py:195-199 | The loop's output equals the report of the listed requests. |
| WfInfo.RunMain | couchdbWfInfo.py:183-199 | With a request list, main prints its report against the chosen service. Otherwise it stops with the usage error or the missing file. |
| FetchAcdcs.OutputFile | fetchACDCs.py:180 | The output file is never empty: the `-o` value if truthy, else `acdcsEstimJobs.json`. |
| FetchAcdcs.ReqMgrUrl | fetchACDCs.py:182 | The request manager is `https://` followed by the `-r` host, defaulting to `https://cmsweb-testbed.cern.ch`. |
| FetchAcdcs.AcdcUrl | fetchACDCs.py:150-151 | A missing `api` raises TypeError. Otherwise the address is the base, then the resubmission query, then `&mask=`, then the api. |
| FetchAcdcs.AcdcUrlIdentifiesApi | fetchACDCs.py:150-151 | On one service, the address determines the field asked for. |
| FetchAcdcs.GetAcdc | fetchACDCs.py:146-156 | A missing `api` raises TypeError. A successful answer means the reply had a `result[0]`. |
| FetchAcdcs.GetAcdcSelects | fetchACDCs.py:152-155 | Without a request name the result is `result[0]`. With one, it is that name's entry of the unnamed result. |
| FetchAcdcs.Collected | fetchACDCs.py:191-193 | The loop succeeds exactly when every item has `TotalEstimatedJobs`. Every collected value is truthy. |
| FetchAcdcs.EstimatedJobs | fetchACDCs.py:191-193 | Anything but a dict raises AttributeError. A dict succeeds exactly when every value has `TotalEstimatedJobs`, and every collected value is truthy. |
| FetchAcdcs.CollectEstimatedJobs | fetchACDCs.py:191-193 | The loop with `append` equals the reference `EstimatedJobs`, raising AttributeError on a non-dict. |
| FetchAcdcs.CollectedAppend | fetchACDCs.py:191-193 | Collecting over two runs of items concatenates, in iteration order. |
| FetchAcdcs.CollectedIsTruthyOnly | fetchACDCs.py:191-193 | When every item has the field, the loop collects exactly the truthy values, in order. |
| FetchAcdcs.TruthyOnlyPicks | fetchACDCs.py:192-193 | The kept values are at increasing positions, and a position is kept exactly when its value is truthy. |
| FetchAcdcs.Sample | fetchACDCs.py:195-200 | The written document has the single top-level key `"0"`. It holds the collected list under `"sample"`, and `n`, `m` and `sigma` are 0. |
| FetchAcdcs.Outcome | fetchACDCs.py:186-203 | main writes its file exactly when the query and the loop both succeed. The file is the output path and holds the collected list as its sample. Otherwise the first exception ends main. |
| FetchAcdcs.RunMain | fetchACDCs.py:176-203 | main's outcome is the reference `Outcome` of the testbed query. The verbose dump is printed exactly when `-v` is given and the query succeeds. |
| FetchAcdcs.WrittenSampleIsCollected | fetchACDCs.py:191-203 | When main writes its file, the ACDCs were a dict, and the sample is the collected list. |

## Left out

- Network I/O (`getContent`, the X509 handler, pycurl) is a `fetch` parameter from address to parsed reply. So the ValueError that `json.loads` raises on a body that is not JSON (couchdbWfInfo.py lines 80 and 105, fetchACDCs.py lines 153 and 155) is not modelled. TLS, HTTP errors and `sys.exit(2)` on them are not modelled.
- The gfal2 library is an abstract storage answering `stat` and `listdir` from two maps. The storage is assumed to answer the same each time it is asked. Logging calls are dropped.
- StorageWalk.LsTree and StorageWalk.Walk require every listdir name to be non-empty. Suppose a listing holds `""` and the stat of the slashed directory reports a directory. Then the Python walk calls itself on the same path until Python 3's recursion limit raises RecursionError. Nothing catches it: only gfal2.GError is caught, at init.py lines 84, 98 and 109. The model does not include that exception.
- `resCons`, `reset_logging`, `measureTime` and `findUnprotectdLfn` (random sampling, external protection lists) are not part of this model.
- The `__main__` blocks, argparse's exit codes, `bin/WMCStandalone/init.py`, `src/python/Utils/DBSUpdater.py` and the tests are not part of this model.
- Opening files is a map from path to contents or parsed document. A path missing from the map is a file that cannot be read.
- FetchAcdcs.Outcome: writing the sample (`open(outputFile, 'w')` and `json.dump`, fetchACDCs.py:202-203) is taken to succeed. An IOError there is not modelled.
- TextWrapper's line-breaking is a function parameter, so nothing is proved about how it wraps.
- Numbers with a fraction or exponent are not part of the JSON model. So the float `eta: 0.9` of the fetchACDCs.py sample is left out of FetchAcdcs.Sample.
- Python 2's `str()` of non-ASCII unicode raising UnicodeEncodeError is not modelled. `str()` of a string is the string.
- Printing is returned as text. WfInfo.RunMain's report line for handleReqMgr (lines 83, 95-96) is not part of the text, because main never calls handleReqMgr.
- The `-c` option (cmswebUrl) is computed but unused in both scripts. `--plot` is parsed but unused.
- A dict's iteration order is the order of its items in the parsed document. Python 2 iterates in hash order, so FetchAcdcs.Collected's "iteration order" is that of the modelled sequence.
- PyJson.Lookup returns the first item with a key, while `json.loads` keeps the last of duplicated keys. Parsed objects are taken to have distinct keys, on which the two agree.
