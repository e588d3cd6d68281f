# Zonge MTFT24 / AVG processing core, modelled in Dafny

This project models the record-keeping and array logic of `mtpy/usgs/zonge.py`.
That module prepares Zonge MTFT24 runs and reads Zonge AVG files.

The project covers these parts of the module:

- **ZongeMTFT time-series catalog.** `get_ts_info_lst` turns a cache directory listing into `ts_info_lst`. The model covers the `.cac` file filter, `Chn_Cmp_lst`, the record fields and the `MM/DD/YY` date rewrite.
- **`sort_ts_lst`.** A stable sort by `ADFrequency`, followed by `File#` renumbering.
- **`compute_number_of_setups`.** One setup per distinct component count, in first-seen order.
- **`set_remote_reference_info`.** Appends the two remote-reference channels to every setup.
- **`get_rr_ts`.** Remote-reference reconciliation:
  - a reversed scan of a candidate pool, with the station/rate/start matching rule and the HHMMSS tolerance;
  - four ways of pairing: direct, cut the local series, resize the remote series to `NLocalPnt` two-value samples, or skip leading remote rows;
  - what happens to the records and to both cache directories when an exception stops the run.
- **`read_cfg`.** The line loop that fills `meta_dict` and the time-series rows.
- **ZongeMTAvg `read_avg_file`.** The line state machine over `akey` and `ii`, which fills `comp_dict`.
- **`fill_Z` and `fill_Tipper`.** These cover:
  - the frequency count and list;
  - the shared `freq_dict` index;
  - growing a tensor by copying it into a larger zero array;
  - whole-column and keyed writes;
  - the negated `zyx` cell;
  - the tipper's `+=` and halving.

Two kinds of code are modelled in two forms:

- **State-changing code.** The methods that change object state are Dafny methods on the classes `Mtft.ZongeMtft` and `MtAvg.ZongeMtAvg`. The numpy tensors are flat row-major `array`s. Each method is proved against a specification function of the old state.
- **Line and record loops.** These are methods with `while` loops, proved equal to a specification function. The properties are then proved about those functions as lemmas.

Python exceptions are modelled as the `Failure` values of `Failures.Result` and `Option`:

- an `IndexError` for an index past the end;
- a `KeyError` for a missing dictionary key;
- a `ValueError` from `int()`, `max()` of nothing or a numpy broadcast;
- a `NameError` for an unbound `akey`;
- an `IOError` for a missing file.

The model keeps what the code leaves behind when an exception interrupts a loop.

File system contents are parameters of the model:

- the directory listings;
- the metadata of readable cache files;
- the sample rows of cache files, as a map from name to rows;
- whether a file exists, and its lines.

Three numerical routines are uninterpreted parameters: `convert2complex`, the `'{0:.4g}'` frequency key and the modulus.

## Model

| member | source | states |
|---|---|---|
| Text.Find | mtpy/usgs/zonge.py:286 | str.find: -1 exactly when the pattern does not occur; otherwise the first index where it occurs |
| Text.FindCharMeansMember | mtpy/usgs/zonge.py:1138 | a one-character find is non-negative exactly when the character is in the string |
| Text.Split | mtpy/usgs/zonge.py:799 | str.split(c): at least one piece, no piece contains the separator |
| Text.JoinSplit | mtpy/usgs/zonge.py:799 | the pieces of split joined with the separator give the text back; there is one piece exactly when the separator is absent |
| Text.SplitJoin | mtpy/usgs/zonge.py:803 | splitting the join of separator-free parts gives the parts back |
| Text.SplitOnce | mtpy/usgs/zonge.py:799-800 | split gives at least two pieces exactly when the separator occurs |
| Text.Strip | mtpy/usgs/zonge.py:799 | strip leaves no white space at either end, and a text with no white space is kept as it is |
| Text.StripSlice | mtpy/usgs/zonge.py:799 | the stripped text is the slice from the first character that is not white space to just past the last one, with only white space outside it |
| Text.StripKeepsChar | mtpy/usgs/zonge.py:1143 | a non-space character is in the stripped text exactly when it is in the text |
| Text.Capitalize | mtpy/usgs/zonge.py:476-478 | capitalize keeps the length, upper-cases the first letter and lower-cases the rest |
| Text.ParseIntAccepts | mtpy/usgs/zonge.py:376 | int() succeeds exactly on a signed digit run with white space around it, giving the digits' value |
| Text.ParseNatToString | mtpy/usgs/zonge.py:588 | int(str(n)) == n for every natural n |
| Text.NatToStringInjective | mtpy/usgs/zonge.py:586-589 | equal str(n) texts mean equal numbers, so different numbers give different ChnGain<n> names |
| Text.StripExt | mtpy/usgs/zonge.py:289 | os.path.splitext's root is the whole name or the part of it before a '.' |
| Text.StripExtCut | mtpy/usgs/zonge.py:289 | os.path.splitext's root: when cut, it is the part of the name before its last '.' and holds something other than dots; the name is kept whole exactly when no '.' follows a character that is not a dot (no dot at all, or only the leading dots of a hidden name) |
| Text.Basename | mtpy/usgs/zonge.py:1125 | os.path.basename is a suffix of the path with no '/' in it, preceded by a '/' unless it is the whole path |
| Catalog.IsLocalCacheName | mtpy/usgs/zonge.py:473 | a listed name is a local cache file exactly when it ends in ".cac" and contains no '$' |
| Catalog.IsCandidateName | mtpy/usgs/zonge.py:285-286 | a remote candidate is a name in which ".cac" occurs but not at index 0 |
| Catalog.Filter | mtpy/usgs/zonge.py:473 | the filtered listing holds exactly the listed names that pass, and is no longer than the listing |
| Catalog.FilterSnoc | mtpy/usgs/zonge.py:472-473 | one more listed name is appended to the filtered names exactly when it passes |
| Catalog.FilterAppend | mtpy/usgs/zonge.py:472-473 | the filter keeps listing order: the filter of two listings one after the other is the two filters one after the other |
| Catalog.CandidatePool | mtpy/usgs/zonge.py:284-285 | the pool holds exactly the listed candidate names |
| Catalog.CandidatePoolOrder | mtpy/usgs/zonge.py:284-285 | the pool keeps listing order: a further listed name is appended at the end exactly when it is a candidate, and the pool of a split listing is the two pools in order |
| Catalog.RewriteDate | mtpy/usgs/zonge.py:491-499 | a date with no '/' is kept; the rewrite raises exactly when the date holds '/' but has fewer than three '/'-fields |
| Catalog.RewriteDateMonthDayYear | mtpy/usgs/zonge.py:495-499 | MM/DD/YY becomes 20YY-MM-DD |
| Catalog.KnownComponents | mtpy/usgs/zonge.py:476-478 | the component list holds only components that the setup's Chn_Cmp knows, and is no longer than the file's list |
| Catalog.KnownComponentsFilter | mtpy/usgs/zonge.py:476-478 | the component list is the capitalized CH.CMP list filtered by Chn_Cmp, so every capitalized component the setup knows is kept, in file order, and no other |
| Catalog.UnitGains | mtpy/usgs/zonge.py:509-510 | ChnGain<lo>..ChnGain<hi> become '1' and every other gain is kept |
| Catalog.NewRecord | mtpy/usgs/zonge.py:480-510 | KeyError("DATE0") exactly when neither date key is there; otherwise the date of DATA.DATE0, or else DATE0, is rewritten and an IndexError of the rewrite is passed on; a record is built exactly when the rewrite succeeds, with File# cc+1, Setup 1, SkipWgt 1, LocalFile the name, RemoteFile '', LocalBlock cc, LocalByte 65, RemoteBlock and RemoteByte empty, the rewritten date, Time0 and T0Offset '0', ADFrequency and NLocalPnt from the metadata, NRemotePnt empty, and exactly the gains 1..num_comp, each '1' |
| Catalog.InsertPermutes | mtpy/usgs/zonge.py:253 | one insertion step of the sort adds exactly the new record |
| Catalog.InsertSorted | mtpy/usgs/zonge.py:253 | insertion into a rate-ordered list keeps it rate-ordered |
| Catalog.InsertWithFreq | mtpy/usgs/zonge.py:253 | insertion puts the record in front of the other records of its rate |
| Catalog.SortByFreqPermutes | mtpy/usgs/zonge.py:253 | sorted() is a permutation of ts_info_lst |
| Catalog.SortByFreqSorted | mtpy/usgs/zonge.py:253 | sorted() is non-decreasing in ADFrequency |
| Catalog.SortByFreqStable | mtpy/usgs/zonge.py:253 | the sort is stable: the records of each rate keep their input order |
| Catalog.Renumbered | mtpy/usgs/zonge.py:255-256 | File# becomes the 1-based position and nothing else changes |
| Mtft.LocalFiles | mtpy/usgs/zonge.py:480 | the LocalFile of every record, position by position |
| Mtft.CatalogShape | mtpy/usgs/zonge.py:471-513 | at every point of get_ts_info_lst's loop, record i is File# i+1 in block i, read from a local cache file, with no remote file; Chn_Cmp_lst has at most one list more than ts_info_lst, and while no exception has occurred the records are the local cache files seen so far, in listing order |
| Mtft.CatalogStopped | mtpy/usgs/zonge.py:471-513 | after an exception the later names change nothing |
| Mtft.ReadCatalog | mtpy/usgs/zonge.py:471-513 | the loop of get_ts_info_lst computes the catalog specification over the whole listing |
| Mtft.ReadEntry | mtpy/usgs/zonge.py:473-513 | one pass of the loop body extends the catalog by one name |
| Mtft.RemoteSetups | mtpy/usgs/zonge.py:569-589 | every setup is replaced by its remote-extended form, in order |
| Mtft.ExtendFacts | mtpy/usgs/zonge.py:570 | Chn.Cmp aliasing: the Chn_Cmp_lst entry of each setup grows by 'Hxr', 'Hyr', and every other entry stays the same |
| Mtft.RemoteKeepsSources | mtpy/usgs/zonge.py:569-589 | after the extension every setup's Chn.Cmp is still its own Chn_Cmp_lst entry |
| Mtft.StepSetups | mtpy/usgs/zonge.py:569-589 | the loop steps every setup once and extends each setup's source list |
| Mtft.ExtendSetups | mtpy/usgs/zonge.py:569-589 | the loop of set_remote_reference_info gives the remote-extended setups and the extended Chn_Cmp_lst |
| Mtft.GroupSetups | mtpy/usgs/zonge.py:522-552 | the len_lst/ii loop computes the grouping specification |
| Mtft.RenumberedSorted | mtpy/usgs/zonge.py:255-256 | renumbering keeps the rate order |
| Mtft.SortTsResult | mtpy/usgs/zonge.py:250-261 | sort_ts_lst's result is ordered by rate, numbered 1..n and a permutation of the input |
| Mtft.ZongeMtft.Tmpl | mtpy/usgs/zonge.py:537-550 | a new setup copies the object's remote path and ts_info_keys |
| Mtft.ZongeMtft.constructor | mtpy/usgs/zonge.py:83-167 | the defaults: an empty catalog, Chn_Cmp Hx..Ey, num_comp 5, the 20 ts_info_keys, the antenna and remote defaults, Setup_Number 1 |
| Mtft.ZongeMtft.GetTsInfoList | mtpy/usgs/zonge.py:455-513 | the cache path is stored; only an empty ts_info_lst is filled from the listing, and Chn_Cmp_lst gains the catalog's component lists; an exception leaves the entries made before it |
| Mtft.ZongeMtft.SortTsList | mtpy/usgs/zonge.py:243-261 | ts_info_lst becomes the renumbered stable sort of itself; an empty list stays empty |
| Mtft.ZongeMtft.ComputeNumberOfSetups | mtpy/usgs/zonge.py:515-553 | setup_lst is the grouping of Chn_Cmp_lst, and Setup_Number is its length |
| Mtft.ZongeMtft.SetRemoteReferenceInfo | mtpy/usgs/zonge.py:555-589 | None changes nothing; otherwise the path is stored, every setup gains the two remote channels, and the aliased Chn_Cmp_lst entries grow with them |
| Mtft.ZongeMtft.GetRrTs | mtpy/usgs/zonge.py:263-453 | an empty or absent remote path leaves everything as it was; otherwise ts_info_lst, both directories and the exception are those of the reconciliation run over the candidate pool |
| Setups.ChannelDictKeys | mtpy/usgs/zonge.py:543-548 | chn_dict's keys are exactly the setup's components, as zip pairs them |
| Setups.ChannelDictLastWins | mtpy/usgs/zonge.py:543-548 | a component maps to the id, gain and length of its last occurrence |
| Setups.Range1 | mtpy/usgs/zonge.py:534 | Chn.ID is 1..n |
| Setups.Repeat | mtpy/usgs/zonge.py:535-536 | the lengths and gains are n copies of one value |
| Setups.PyPrefix | mtpy/usgs/zonge.py:549-550 | Python's s[:k], for a negative, oversized or in-range k |
| Setups.NewSetup | mtpy/usgs/zonge.py:529-550 | a new setup has Chn.ID 1..n, all lengths 100, all gains 1, and the first len(keys)-(5-n) ts_info_keys |
| Setups.CountsOf | mtpy/usgs/zonge.py:523-528 | len_lst: the component count of each setup, position by position |
| Setups.AddSetup | mtpy/usgs/zonge.py:525-552 | a list whose length is already in len_lst changes nothing; any other list appends the next numbered setup |
| Setups.AddGrouped | mtpy/usgs/zonge.py:525-552 | one turn of the loop keeps the grouping guarantees |
| Setups.SetupsForGrouped | mtpy/usgs/zonge.py:515-553 | the setups are numbered 1, 2, ... and come from the first list of each length, in list order; no two have the same count, and every count met has its setup |
| Setups.SetupCountDistinct | mtpy/usgs/zonge.py:553 | Setup_Number is the number of distinct component counts |
| Setups.GroupedCount | mtpy/usgs/zonge.py:553 | any grouping has as many setups as there are distinct counts |
| Setups.FiveFiveThreeFiveThree | mtpy/usgs/zonge.py:515-553 | component counts 5, 5, 3, 5, 3 give exactly two setups: id 1 from the first list and id 2 from the third |
| Setups.WithRemote | mtpy/usgs/zonge.py:569-589 | a setup gains exactly Hxr/Hyr, ids '2284'/'2274', lengths 100, gains 1, ChnGain<n+1> and ChnGain<n+2>, and the remote path with the separator |
| Setups.SetupsForPrefix | mtpy/usgs/zonge.py:525-552 | the setups after k+1 lists are the setups after k lists plus the step for list k |
| MtftConfig.ZipDictKeys | mtpy/usgs/zonge.py:803-804 | the row's keys are the first min(len) time-series keys: zip truncates |
| MtftConfig.ZipDictValue | mtpy/usgs/zonge.py:803-804 | with distinct keys, key i holds field i |
| MtftConfig.CfgLine | mtpy/usgs/zonge.py:798-806 | one line adds at most one row, and a line that goes through keeps every meta key |
| MtftConfig.ReadLine | mtpy/usgs/zonge.py:798-806 | one pass of the loop body is the line step |
| MtftConfig.ReadCfg | mtpy/usgs/zonge.py:797-806 | the loop of read_cfg computes the parser's specification over all lines |
| MtftConfig.CfgStopped | mtpy/usgs/zonge.py:797-806 | after an exception the later lines change nothing |
| MtftConfig.CfgRowsBounded | mtpy/usgs/zonge.py:797-806 | read_cfg adds at most one row per line |
| MtftConfig.CfgLineCases | mtpy/usgs/zonge.py:798-806 | a line goes through exactly when it is non-empty and, if it is a '$' line, holds '='; the rows it adds are its table row |
| MtftConfig.DirectiveCases | mtpy/usgs/zonge.py:798-800 | a '$' line fails exactly when it has no '=', and it adds no row |
| MtftConfig.EqualsInDirective | mtpy/usgs/zonge.py:799-800 | clst[1] exists exactly when the line holds '=' |
| MtftConfig.CfgOutcome | mtpy/usgs/zonge.py:797-807 | read_cfg fails exactly when some line is empty or is a '$' line without '='; on success the rows are those of the table lines, in file order |
| MtftConfig.MetaLine | mtpy/usgs/zonge.py:798-800 | a '$' line whose text after the '$' strips to `key=value=...` stores value, the second '='-field, under key, whatever white space surrounds it |
| MtftConfig.RowLine | mtpy/usgs/zonge.py:801-806 | a line that does not start with '$', has '.cac' after its start and strips to comma fields becomes the row that zips the time-series keys with those fields |
| MtftConfig.CfgLineMeta | mtpy/usgs/zonge.py:797-806 | a line that read_cfg gets through changes meta_dict only when it is a '$' line, setting its key to its value |
| MtftConfig.MetaOfStep | mtpy/usgs/zonge.py:798-800 | updating the dictionary at one more line keeps it holding the keys of the '$' lines so far, each with the value of the last line naming it |
| MtftConfig.StepMeta | mtpy/usgs/zonge.py:797-806 | a loop whose step updates the dictionary exactly at the '$' lines ends, when it gets through, with the keys of those lines and each key's last value |
| MtftConfig.LineParserMeta | mtpy/usgs/zonge.py:797-806 | read_cfg's own step updates meta_dict exactly at the '$' lines |
| MtftConfig.CfgMeta | mtpy/usgs/zonge.py:797-807 | when read_cfg gets through the file, meta_dict holds exactly the keys of its '$' lines, and each key holds the second '='-field of the last '$' line that names it |
| AvgFile.SetCellGet | mtpy/usgs/zonge.py:1155-1156 | a cell write changes that cell and no other |
| AvgFile.RowUpToCells | mtpy/usgs/zonge.py:1154-1156 | a row write goes through exactly when there are enough fields and each converts; then column k holds field k |
| AvgFile.Start | mtpy/usgs/zonge.py:1128-1136 | before the first line every flag is down and every component has len(alines)/4 rows |
| AvgFile.DirectiveTest | mtpy/usgs/zonge.py:1138 | `find('=') > 0 and find('$') == 0` holds exactly for a '$' line with an '=' |
| AvgFile.StripAll | mtpy/usgs/zonge.py:1139 | every piece is stripped, position by position |
| AvgFile.FillRow | mtpy/usgs/zonge.py:1154-1156 | the cell loop computes the row-write specification |
| AvgFile.ReadAvgLine | mtpy/usgs/zonge.py:1137-1156 | one pass of the loop body is the line step |
| AvgFile.ParseAvg | mtpy/usgs/zonge.py:1137-1156 | the loop of read_avg_file computes the parser's specification over all lines |
| AvgFile.AvgStopped | mtpy/usgs/zonge.py:1137-1156 | after an exception the later lines change nothing |
| AvgFile.StartWellFormed | mtpy/usgs/zonge.py:1128-1136 | the loop starts in shape |
| AvgFile.AvgLineKeeps | mtpy/usgs/zonge.py:1137-1156 | each line keeps the flags, the lists, the row counts and the current component in shape |
| AvgFile.ParseKeepsShape | mtpy/usgs/zonge.py:1128-1156 | after a whole file comp_lst_z holds only z-components and comp_lst_tip only t-components; a flag is up exactly when its component is listed; no component gained or lost rows |
| AvgFile.DataLineFills | mtpy/usgs/zonge.py:1152-1156 | a data line that goes through fills row ii of the current component with its twelve fields, moves ii on by one and changes no other row |
| AvgFile.DataLineChosen | mtpy/usgs/zonge.py:1150-1153 | a line longer than two characters is a data line when it is not a directive and does not start with 'S' |
| AvgFile.SkippedLines | mtpy/usgs/zonge.py:1150-1152 | 'S' lines and short lines change nothing; an empty line raises IndexError |
| AvgFile.HeaderLine | mtpy/usgs/zonge.py:1147-1149 | a directive that names no component goes to the header without its '$' and changes nothing else |
| AvgFile.ComponentLine | mtpy/usgs/zonge.py:1140-1146 | a directive naming a component raises its flag, appends it to comp_lst_z when it starts with 'z' and to comp_lst_tip when it starts with 't', makes it akey and resets ii to 0, leaving the header and the table alone |
| Tensor.Add | mtpy/usgs/zonge.py:1296 | complex addition, part by part |
| Tensor.Neg | mtpy/usgs/zonge.py:1212 | the negation adds to zero with its value |
| Tensor.Half | mtpy/usgs/zonge.py:1304 | half of a value, doubled, is the value |
| Tensor.HalfTwice | mtpy/usgs/zonge.py:1304 | halving a doubled contribution gives it back |
| Tensor.CellsDistinct | mtpy/usgs/zonge.py:1189-1202 | different (row, column) pairs are different cells of the flat buffer |
| Tensor.CellRow | mtpy/usgs/zonge.py:1189-1202 | a cell lies in the first rows exactly when its row does |
| Tensor.Grow | mtpy/usgs/zonge.py:1192-1200 | the grown buffer holds the old cells first and zeros after them |
| Tensor.GrowArray | mtpy/usgs/zonge.py:1192-1200 | np.zeros of the new shape with the old rows copied in: a fresh array holding the grown buffer |
| Tensor.ColumnUpdateCells | mtpy/usgs/zonge.py:1220-1227 | a whole-column write sets each row of the column from its value and leaves every other cell |
| Tensor.UpdateColumn | mtpy/usgs/zonge.py:1220-1227 | the in-place column write is the column-update specification |
| Tensor.ScatterFacts | mtpy/usgs/zonge.py:1210-1219 | the keyed write fails exactly when a key is missing or names a row past the end, and it touches only its column |
| Tensor.ScatterFailureAgrees | mtpy/usgs/zonge.py:1210-1219 | whether the keyed loop stops does not depend on the values written |
| Tensor.ScatterColumns | mtpy/usgs/zonge.py:1210-1219 | the keyed loop over values and errors computes the keyed-update specification, and keeps the writes made before an exception |
| Tensor.MapCells | mtpy/usgs/zonge.py:1304 | every cell is replaced by f of itself |
| Tensor.MapArray | mtpy/usgs/zonge.py:1304 | the in-place /= 2 is the cell map |
| Fill.Nonzero | mtpy/usgs/zonge.py:1183-1184 | x[np.nonzero(x)] keeps only non-zero entries and is no longer than x |
| Fill.NonzeroAll | mtpy/usgs/zonge.py:1183-1184 | a list with no zero entry is its own non-zero part |
| Fill.Counts | mtpy/usgs/zonge.py:1182-1184 | flst fails exactly when a listed component is missing from comp_dict; otherwise entry k is the k-th component's number of non-zero frequencies |
| Fill.FreqSetupFacts | mtpy/usgs/zonge.py:1182-1187 | fails exactly when no component is listed or one is missing; otherwise nz is the largest count, and freq is from the first component that reaches it |
| Fill.FreqIndexFacts | mtpy/usgs/zonge.py:1191 | freq_dict has a key for every frequency and nothing else, each key names a position of its frequency, and with distinct keys frequency i is at position i |
| Fill.CompUpdateOther | mtpy/usgs/zonge.py:1205-1227 | a component's write touches only its own column |
| Fill.CompsOtherColumns | mtpy/usgs/zonge.py:1205-1227 | only listed components are written: a column no listed component names keeps its cells |
| Fill.ColumnsByKey | mtpy/usgs/zonge.py:1220-1227 | column mode goes through; a listed component's column receives its values and errors row by row, and an unlisted one keeps what it held |
| Fill.YxOnly | mtpy/usgs/zonge.py:1212 | of the four Z components only zyx contains 'yx' after its start |
| Fill.NzFits | mtpy/usgs/zonge.py:1182-1187 | with the components in comp_dict and sharing one row count, the setup goes through and nz is at most that count |
| Fill.FillZResized | mtpy/usgs/zonge.py:1188-1252 | in column mode fill_Z goes through, sets nfreq to nz, rebuilds the frequencies and the index unless the count was already Z's, and leaves the tipper |
| Fill.ZColumnCells | mtpy/usgs/zonge.py:1220-1227 | cell by cell: a listed column receives the values, with zyx negated and %err * 0.005 as the error; an unlisted one keeps the old cells, with zeros past the old Z |
| Fill.FillZColumns | mtpy/usgs/zonge.py:1189-1252 | after growth the old rows keep their values; listed components are written, zyx negated, zerr = %err * 0.005; an unlisted column keeps old rows and is zero in new ones |
| Fill.ZColumnForm | mtpy/usgs/zonge.py:1189-1252 | in column mode Z is the loop run over the old Z grown to the file's count |
| Fill.ZKeyedForm | mtpy/usgs/zonge.py:1205-1219 | in keyed mode only Z changes, to the keyed loop run over it |
| Fill.KeyedOk | mtpy/usgs/zonge.py:1210-1219 | the keyed loop goes through exactly when every listed component does |
| Fill.ZKeyedFits | mtpy/usgs/zonge.py:1210-1219 | a Z component's keyed write goes through exactly when all its frequency keys are in freq_dict and name rows of Z |
| Fill.ZKeyedCells | mtpy/usgs/zonge.py:1210-1219 | the keyed pass goes through exactly when every key names a row, keeps the sizes and leaves unlisted columns alone |
| Fill.FillZKeyed | mtpy/usgs/zonge.py:1205-1219 | with fewer frequencies than Z, fill_Z goes through exactly when every key is in freq_dict and names a row; Z keeps its size and its bookkeeping, unlisted columns keep their cells, and the tipper is untouched |
| Fill.TipFirstForm | mtpy/usgs/zonge.py:1307-1328 | the first fill_Tipper fills a zero tipper and assigns it |
| Fill.TipLaterForm | mtpy/usgs/zonge.py:1268-1305 | a later column-mode fill_Tipper adds into the grown tipper and halves the values |
| Fill.TipKeyedForm | mtpy/usgs/zonge.py:1284-1305 | a later keyed fill_Tipper adds through the index and halves only if the loop went through |
| Fill.TipFirstCells | mtpy/usgs/zonge.py:1307-1328 | the first fill's cells: a listed column holds the values with %err * 0.05 * abs(t) as the error; an unlisted column is zero |
| Fill.FillTipperFirst | mtpy/usgs/zonge.py:1307-1328 | the first fill_Tipper goes through, records the frequencies, rebuilds freq_dict and leaves Z; a listed column holds the values with errors %err * 0.05 * abs(t), an unlisted one is zero |
| Fill.FillTipperLater | mtpy/usgs/zonge.py:1268-1305 | a later column-mode fill_Tipper goes through, leaves Z, sets nfreq_tipper to nz, and rebuilds the frequencies and the index only on growth |
| Fill.TipAddCells | mtpy/usgs/zonge.py:1297-1301 | the += pass adds each contribution to the old cell and the error to the old error; unlisted cells keep both, and new rows start at zero |
| Fill.TipHalvedCells | mtpy/usgs/zonge.py:1297-1305 | after halving, a listed cell is half of old plus new, so an equal contribution leaves the value |
| Fill.FillTipperLaterListed | mtpy/usgs/zonge.py:1268-1305 | on a later call a listed cell becomes (old + v)/2, so two equal contributions yield that value; the error is old + new and is not halved |
| Fill.FillTipperLaterOthers | mtpy/usgs/zonge.py:1297-1305 | on a later call an unlisted column is halved and keeps its error |
| Fill.TipKeyedCells | mtpy/usgs/zonge.py:1289-1296 | the keyed += pass goes through exactly when every key names a row, keeps sizes and leaves unlisted columns alone |
| Fill.FillTipperKeyed | mtpy/usgs/zonge.py:1284-1305 | with fewer frequencies than the tipper, the fill goes through exactly when every key names a row; only the tipper changes; unlisted values are halved on success and kept on failure |
| Fill.FillZKeepsTipper | mtpy/usgs/zonge.py:1178-1255 | fill_Z changes Z, its count, its frequencies and freq_dict, and nothing of the tipper |
| Fill.FillTipperKeepsZ | mtpy/usgs/zonge.py:1258-1331 | fill_Tipper changes the tipper, its count, its frequencies and freq_dict, and nothing of Z |
| MtAvg.WriteComp | mtpy/usgs/zonge.py:1206-1227 | one pass of the component loop, in place on the two arrays, is the component-write specification |
| MtAvg.WriteComps | mtpy/usgs/zonge.py:1205-1227 | the component loop in place, stopping at the first exception with the earlier writes kept |
| MtAvg.ZLaterBranch | mtpy/usgs/zonge.py:1188-1227 | fill_Z on an existing Z is the loop over the grown or unchanged tensors |
| MtAvg.ZFirstBranch | mtpy/usgs/zonge.py:1229-1252 | fill_Z with no Z sets nfreq and freq_dict first and replaces Z only if the loop goes through |
| MtAvg.FillZOn | mtpy/usgs/zonge.py:1178-1252 | fill_Z on the arrays, written in place or replaced by fresh ones, computes the fill_Z specification |
| MtAvg.ZLaterOn | mtpy/usgs/zonge.py:1188-1227 | the existing-Z branch on the arrays |
| MtAvg.ZFirstOn | mtpy/usgs/zonge.py:1229-1252 | the first-Z branch on the arrays |
| MtAvg.TipLaterBranch | mtpy/usgs/zonge.py:1268-1305 | fill_Tipper on an existing tipper is the loop over the grown or unchanged tipper, halved if it went through |
| MtAvg.TipFirstBranch | mtpy/usgs/zonge.py:1307-1328 | fill_Tipper with no tipper sets the count and freq_dict first and assigns the tipper only if the loop goes through |
| MtAvg.FillTipperOn | mtpy/usgs/zonge.py:1258-1328 | fill_Tipper on the arrays computes the fill_Tipper specification |
| MtAvg.TipLaterOn | mtpy/usgs/zonge.py:1268-1305 | the existing-tipper branch on the arrays: grow, += in place, /= 2 on success |
| MtAvg.TipFirstOn | mtpy/usgs/zonge.py:1307-1328 | the first-tipper branch on the arrays |
| MtAvg.ZongeMtAvg.constructor | mtpy/usgs/zonge.py:1064-1114 | a new object has no Z, no tipper, no counts and no index; all flags are down and all lists are empty |
| MtAvg.ZongeMtAvg.ReadAvgFile | mtpy/usgs/zonge.py:1117-1159 | a missing file raises IOError and changes nothing; comp is the base name's first letter; the parser attributes are what the line loop leaves; a read that goes through ends with fill_Z and fill_Tipper |
| MtAvg.ZongeMtAvg.ReadLinesInto | mtpy/usgs/zonge.py:1125-1156 | comp is set, and the parser attributes are those of the line loop, whether or not a line raises |
| MtAvg.ZongeMtAvg.FillBoth | mtpy/usgs/zonge.py:1158-1159 | fill_Z, then fill_Tipper unless fill_Z raised; the object is valid again on success |
| MtAvg.ZongeMtAvg.FillZ | mtpy/usgs/zonge.py:1178-1255 | the object's tensors become the fill_Z result, and Z is in shape again on success |
| MtAvg.ZongeMtAvg.FillTipper | mtpy/usgs/zonge.py:1258-1331 | the object's tensors become the fill_Tipper result, and the tipper is in shape again on success |
| RemoteReference.Tokens | mtpy/usgs/zonge.py:289 | the '_'-tokens of a file's root: always at least one |
| RemoteReference.Verdict | mtpy/usgs/zonge.py:295-299 | acceptance needs equal station and rate tokens; equal station, rate and start tokens accept, and a different station token refuses |
| RemoteReference.Paired | mtpy/usgs/zonge.py:303-310 | a match copies LocalBlock, LocalByte and NLocalPnt to the remote fields, sets both reference gains to '1' and changes nothing else |
| RemoteReference.Resize | mtpy/usgs/zonge.py:319-321 | np.resize to fewer rows is a prefix; a non-empty series reaches the requested length, and when it grows, row i is row i mod its length |
| RemoteReference.ResizePairs | mtpy/usgs/zonge.py:354-355 | np.resize to (NLocalPnt, 2) gives NLocalPnt samples of two values, value c of sample i being the flattened series' value 2i+c, cyclically |
| RemoteReference.ResizePairsPrefix | mtpy/usgs/zonge.py:354-355 | for a series of two-value samples, resizing to fewer samples keeps the first ones |
| RemoteReference.FlattenPairs | mtpy/usgs/zonge.py:354-355 | numpy's row-major flattening puts the two values of sample i at 2i and 2i+1 |
| RemoteReference.DropFront | mtpy/usgs/zonge.py:412 | ts[k:] drops the first k rows, giving [] past the end |
| RemoteReference.Apply | mtpy/usgs/zonge.py:299-445 | an applied match records the candidate's index and name |
| RemoteReference.PickAccepted | mtpy/usgs/zonge.py:295-298 | a picked index is in the pool and its candidate was accepted |
| RemoteReference.RunUpToShape | mtpy/usgs/zonge.py:288-453 | the run has handled every record so far unless it stopped |
| RemoteReference.RunStopped | mtpy/usgs/zonge.py:288-453 | after an exception the later records change nothing |
| RemoteReference.RunAfter | mtpy/usgs/zonge.py:288-453 | a record that goes through is appended to the run; one that raises ends it |
| RemoteReference.PickFromEnd | mtpy/usgs/zonge.py:295-298 | the reversed scan with break computes the pick specification |
| RemoteReference.ReconcileOne | mtpy/usgs/zonge.py:289-451 | one record's tolerance lookup and scan computes the reconciliation specification |
| RemoteReference.ReconcileRecords | mtpy/usgs/zonge.py:288-453 | the outer loop computes the run specification; the records after the run keep the in-place updates |
| ReconcileFacts.PairedKeeps | mtpy/usgs/zonge.py:303-310 | pairing keeps the record's identity fields and sets the paired fields |
| ReconcileFacts.ApplyPairs | mtpy/usgs/zonge.py:303-445 | after every match NRemotePnt = NLocalPnt, RemoteBlock = LocalBlock, RemoteByte = LocalByte and the reference gains are '1'; the identity is kept |
| ReconcileFacts.PickIsLastAccepted | mtpy/usgs/zonge.py:295-298 | a pick is an accepted candidate every later one of which was refused |
| ReconcileFacts.PickNoneAllRefused | mtpy/usgs/zonge.py:295-298 | no pick means every candidate was refused |
| ReconcileFacts.AllRefusedPickNone | mtpy/usgs/zonge.py:295-298 | if every candidate is refused there is no pick |
| ReconcileFacts.LastAcceptedIsPick | mtpy/usgs/zonge.py:295-298 | the last accepted candidate with only refusals after it is the pick |
| ReconcileFacts.UnmatchedUnchanged | mtpy/usgs/zonge.py:447-451 | a record with no acceptable candidate comes out unchanged, with RemoteFile still '', and no directory changes |
| ReconcileFacts.ScanOutcome | mtpy/usgs/zonge.py:295-451 | a scan leaves everything as it was when all candidates were refused; otherwise the last accepted candidate is applied and the record is paired |
| ReconcileFacts.ApplyDirect | mtpy/usgs/zonge.py:299-313 | same start and the same count: paired with the candidate, and no file is rewritten |
| ReconcileFacts.ApplyShrinkLocal | mtpy/usgs/zonge.py:316-343 | same start, remote shorter: the local series becomes its prefix of the remote's length under the new name, and NLocalPnt = NRemotePnt = that length |
| ReconcileFacts.ApplyShrinkRemote | mtpy/usgs/zonge.py:346-373 | same start, remote longer: the remote series becomes np.resize of it to NLocalPnt two-value samples under the new name, which is its first NLocalPnt samples when each sample has two values; NRemotePnt is NLocalPnt |
| ReconcileFacts.ApplySkip | mtpy/usgs/zonge.py:385-433 | different start within tolerance and different counts: the remote becomes ts[rate * time_diff:], so it loses exactly its first rate * time_diff rows and is empty when that runs past its end; NRemotePnt is still NLocalPnt |
| ReconcileFacts.ApplyNearDirect | mtpy/usgs/zonge.py:434-445 | different start within tolerance and equal counts: paired directly |
| ReconcileFacts.ApplyMissingRemote | mtpy/usgs/zonge.py:299-302 | a candidate not in the remote directory raises IOError |
| ReconcileFacts.ToleranceLookup | mtpy/usgs/zonge.py:289-290 | a local name without a rate token raises IndexError; rates 256, 1024 and 4096 are scanned with the rr_tdiff_dict tolerances 060000, 002000 and 000500 (:167); any other rate raises KeyError |
| ReconcileFacts.Reconcile1Outcome | mtpy/usgs/zonge.py:289-451 | a record comes out as it went in, or paired with its identity kept |
| ReconcileFacts.ReconcilerReconciles | mtpy/usgs/zonge.py:288-451 | get_rr_ts's record step only reconciles the record it is given |
| ReconcileFacts.RunEntries | mtpy/usgs/zonge.py:288-451 | a run yields one entry per record handled, in input order |
| ReconcileFacts.RecordsOnePerInput | mtpy/usgs/zonge.py:288-453 | get_rr_ts leaves exactly one entry per input record, entry i from record i, even after an exception |
| ReconcileFacts.VerdictWithin | mtpy/usgs/zonge.py:376 | a different start token is accepted exactly when the raw integer difference of the HHMMSS tokens is below int(tdiff), the rate's tolerance text (:290) |
| ReconcileExample.CacheTokens | mtpy/usgs/zonge.py:289 | the tokens of any cache name station_schedule_start_rate.cac are its four fields |
| ReconcileExample.ExampleTokens | mtpy/usgs/zonge.py:289-296 | the tokens of the example's local name and of its candidate name |
| ReconcileExample.ExampleDigits | mtpy/usgs/zonge.py:376 | int("002000") = 2000 and int("002005") = 2005 |
| ReconcileExample.NearStartExample | mtpy/usgs/zonge.py:376-445 | a 1024 Hz candidate starting five HHMMSS units later, with equal counts, is paired directly |
| ReconcileExample.ResizeRegroupsByTwos | mtpy/usgs/zonge.py:354-355 | a reference series of three-value samples [[1,2,3],[4,5,6],[7,8,9]] resized to two samples is [[1,2],[3,4]] |

## Left out

- File system access is not modelled. Directory listings, cache metadata, sample rows, file existence and file lines are parameters. The `zen` module, `os.listdir`, `read_cache`, `read_cache_metadata` and `rewrite_cache_file` are not part of this model.
- The name a rewritten cache file gets from `save_fn_rw` is a parameter. `zcrr.save_fn` is taken to be the name that was read.
- Numerical routines are parameters: `convert2complex`'s trigonometry, the `'{0:.4g}'` frequency key, the square-root modulus and numpy's text-to-number conversion. Cells hold exact reals, with no rounding.
- `np.nan_to_num` at the end of `fill_Z` and `fill_Tipper` is not modelled, because there are no NaN or infinite values among exact reals.
- Printed diagnostics are not modelled, because they have no effect on state.
- `read_cfg` is modelled from its line list. The `os.path.isfile` check before it, and `set_values` and `make_value_dict` after it, are not part of this model.
- The `meta_dict`/`ts_info_lst` attribute assignment of `read_cfg` is not modelled; ReadCfg returns the parse instead.
- `write_edi`, `get_survey_info`, `write_mtft_cfg` and the `ZongeMTEdit` class are not part of this model. They are file output and external survey lookups.
- Text operations cover ASCII only. Unicode white space in `strip` and non-ASCII case mapping are not modelled.
- Only POSIX paths are modelled: `os.path.sep` is '/' and `os.path.basename` splits at '/'.
- RemoteReference.Resize: np.resize of an empty series is assumed to stay empty. numpy would give zero-filled rows there; an empty cache file has no time-series block.
- RemoteReference.Resize: the local series is cut or repeated by whole samples. This is np.resize with the series' own width only for a rectangular series, which every numpy array is; ragged sample lists are outside this model.
- Fill.CompUpdate: a whole-column write of a component with a single row raises ValueError in the model, where numpy would broadcast that row. The column falls short of the buffer only in a table whose components differ in length.
- Mtft.ZongeMtft.SortTsList: the `str()` conversion of the non-string fields after the sort is not modelled, because the records keep typed fields.
- The cache metadata is taken as already parsed to integers. The text that `int()` could fail on is outside this model.
- `Remote_Path` None and '' are one case, because both return at once. `Tipper.tipper` None is modelled as the flag hasTip.
- Fill.FillZKeyed: the values written to the keyed rows of Z are stated through ZKeyedForm and the keyed loop, not cell by cell. Only failure, sizes and unlisted columns are stated outright.
- Fill.FillZColumns, Fill.FillTipperLaterListed: the cell statements assume that every listed component is in comp_dict and that all components have one row count (Uniform). read_avg_file allocates the table that way. Other tables are covered by the general Form lemmas only.
- MtAvg.ZongeMtAvg.FillZ: the object is stated to be in shape only when the fill goes through; after an exception it holds what the source leaves, which may be out of shape.
- MtAvg.ZongeMtAvg.FillTipper: the same holds as for FillZ.
- The tipper error is not halved, because the source discards the result of its halving (`mtpy/usgs/zonge.py:1305`).
- The text of exception messages is not modelled. An IOError carries the path or name involved.
- Ragged data lines of the AVG file with fewer than twelve fields raise IndexError, as in the source. Column types beyond the conversion parameter are not modelled.
