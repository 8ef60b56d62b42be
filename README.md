# genv in Dafny

genv is a small Go package for an application's persistent environment
variables. It keeps three pieces of package state:

- `EnvVariables`, a `map[string]string`;
- `genvDir`, the application directory;
- `genvPath`, the path of the `.NAME.env` file.

On that state it offers these operations:

- Typed setters: `CreateStringVar` and `CreateIntVar`, both through `addToEnvMap`.
- A getter, `GetVar`.
- `Save`, which writes every variable with a non-empty value as a `key=value` line.
- `Load`, which walks a directory tree to find the application directory and merges the file's `key=value` lines back into the map.
- `Init` on Linux, which creates `.NAME` under the home directory or a given directory, together with an empty `.NAME.env` inside it.

The model follows both copies of the code: the top-level `genv.go` and the
older `src/v1` files. They differ only in their error values.

Modules:

- `Strings`: `strings.Contains`, the ASCII part of `strings.ToTitle`, and `strings.Split` on one separator character.
- `Bufio`: `bufio.ScanLines` over the whole file content.
- `Strconv`: `strconv.Itoa` on Go's 64-bit `int`, plus a decimal parser that serves as its inverse.
- `Filepath`: `filepath.Join` and `filepath.Dir` on clean Unix paths.
- `EnvMap`: the Go map value, which is either `nil` or made. Reading a nil map gives `""`; writing one panics.
- `EnvFile`: the file format. Save's lines, Load's split-and-merge loop, and the round trip between the two.
- `Genv`: the package state as the class `Store`, with the setters, the getter, `Save`, `Load` and `Init`.

File system calls, the home directory lookup and the directory walk are not
performed. Their outcomes are method parameters:

- `stat`: what `os.Stat` reports.
- `home`: the result of `os.UserHomeDir`.
- `walked`: the paths the walk visits, in order.
- `walkFailed`, `mkdirOk`, `createOk`, `openOk`, `writeOk`: whether each call succeeds.
- `writeFails`: the index of the first failing `WriteString`.
- `partial`: how many characters of its line that failing `WriteString` still wrote.
- `content`: the text of the file that is read.

`Save` returns what it did to the file (`Untouched` or `Written(content)`).
It also returns a ghost `order`, the keys in the order the map's iteration
yielded them.

Behaviour of the code worth noting:

- Load keeps only the text between the first and the second `=` as the value. For example, `k=b=c` loads as `k` = `b`.
- A line without `=` makes the index `line[1]` panic (modelled as `RuntimePanic(IndexOutOfRange)`). The line is not skipped.
- Load picks the parent of the LAST visited path that contains the upper-cased name, not the first. The doc comment of Load (genv.go:111-113) speaks of one `.NAME` directory in the home directory; the code takes any path, at any depth, whose text contains the name.
- With an explicit directory, Load does not use that directory directly, although its doc comment (genv.go:113) says it looks there for `.NAME.env`. It walks the directory like the home directory, and it rejects the directory only when `os.Stat` says it does not exist.
- Load ignores a failure of `os.UserHomeDir`. The walk then visits whatever it visits from `""`.

## Model

| member | source | states |
|---|---|---|
| EnvMap.GoMap.Get | genv.go:69-71 | Reading a map gives the stored value for a present key and `""` for an absent key or a nil map |
| EnvMap.GoMap.Put | genv.go:46-48 | Writing a made map adds the key, makes it read back as the new value, and leaves every other key's value as it was |
| EnvMap.InitEnvMap | src/v1/genv_create_var.go:7-9 | The package starts with a made, empty map in which every key reads as `""` |
| EnvMap.PutIdempotent | src/v1/genv_create_var.go:11-13 | Setting the same key to the same value twice is the same as setting it once |
| EnvMap.PutLastWins | src/v1/genv_create_var.go:11-13 | Of two writes to one key, only the second is kept |
| Genv.Store.constructor | genv.go:34-38 | The package starts with an empty directory, an empty path and the map from initEnvMap |
| Genv.Store.GetVar | genv.go:69-71 | GetVar returns the stored value, or `""` for an absent key or a nil map |
| Genv.Store.AddToEnvMap | genv.go:46-48 | The map afterwards is the old map with `key` set to `value` |
| Genv.Store.CreateStringVar | src/v1/genv_create_var.go:15-17 | The value is stored verbatim, GetVar returns it, and every other key reads as before |
| Genv.Store.CreateIntVar | genv.go:55-58 | The stored string is never empty and parses back to the integer given; every other key reads as before |
| Strconv.NatToDecimal | genv.go:56 | The decimal digits of a natural number: non-empty, digits only, no leading zero except for 0 itself, and their value is the number |
| Strconv.Itoa | genv.go:56 | strconv.Itoa produces a non-empty canonical decimal: an optional `-`, then digits with no leading zero, and no `-0` |
| Strconv.Atoi | src/v1/genv_create_var.go:19-22 | The reference parser accepts only values within Go's 64-bit int range |
| Strconv.AtoiItoa | src/v1/genv_create_var.go:19-22 | Every 64-bit int formatted by Itoa parses back to itself |
| Strconv.ItoaIsPlain | src/v1/genv_create_var.go:19-22 | A formatted int contains no `=`, `\n` or `\r`, so it survives Save and Load |
| Strings.Contains | genv.go:132 | strings.Contains holds exactly when the block occurs at some position of the string |
| Strings.ContainsMiddle | genv.go:132 | A string contains any block that sits anywhere in it |
| Strings.UpperChar | genv.go:115 | A lower-case ASCII letter becomes its upper-case letter; every other character is kept |
| Strings.ToTitle | genv.go:115 | The name is upper-cased character by character (ASCII letters), keeping its length |
| Strings.ToTitleIdempotent | genv_init_linux.go:18 | Normalising an already normalised name changes nothing, so Init and Load agree on it |
| Strings.IndexOf | genv.go:150-151 | The first occurrence of a character, or -1 exactly when the character is absent |
| Strings.Split | genv.go:152 | strings.Split gives at least one piece; it gives exactly one iff the separator is absent; no piece contains the separator; joining the pieces with the separator gives back the input |
| Strings.SplitAtFirstSep | genv.go:152 | A prefix without the separator becomes the first piece, followed by the pieces of the rest |
| Strings.SplitPair | genv.go:152-153 | `k=v` with no `=` in `k` or `v` splits into exactly `[k, v]` |
| Bufio.DropCR | genv.go:150-151 | A scanned line loses at most one trailing `\r` |
| Bufio.ScanLines | genv.go:150-151 | Scanned lines contain no `\n`; there are no lines exactly when the content is empty |
| Bufio.ScanFirstLine | genv.go:150-151 | The scanner takes the text up to the first newline, less one trailing `\r`, as a line and goes on with the text after it |
| Bufio.ScanTerminated | src/v1/genv_load_env.go:51-52 | Scanning lines that each end in `\n` (and have no `\n` and no trailing `\r`) gives back those lines |
| Filepath.Join | genv_init_linux.go:41 | filepath.Join of an empty and another element is the other element; of two non-empty elements it puts one `/` between them; the result is empty only when both are |
| Filepath.LastSlash | genv.go:133 | The position of the last `/`, with no `/` after it |
| Filepath.Dir | genv.go:133 | filepath.Dir is never empty (`.` or `/` at the least) |
| Filepath.DirJoin | genv.go:133 | The parent of `d/name` is `d` when `name` holds no `/` |
| EnvFile.NonEmpty | genv.go:93-97 | Save keeps exactly the entries whose value is non-empty, with their values |
| EnvFile.Line | genv.go:95 | The line of an entry is the key, `=`, the value and `\n`, two characters longer than key and value together |
| EnvFile.Render | genv.go:92-98 | One gathered line per key of the order, the i-th being the line of the i-th key with its value |
| EnvFile.Concat | genv.go:101-106 | The written content is empty exactly when every written line is empty |
| EnvFile.ConcatPrefix | genv.go:101-106 | The lines written before a failing write, with the characters that write managed, are a prefix of the full content |
| EnvFile.ConcatSnoc | genv.go:101-106 | Writing one more line appends it to the file content |
| EnvFile.RenderIsTerminatedTexts | genv.go:95 | The written content is the `key=value` texts, each followed by `\n` |
| EnvFile.ParseLine | genv.go:152-153 | A line parses iff it contains `=`; the key and the value hold no `=`, and `key=value` is a prefix of the line ending at its end or at a second `=` |
| EnvFile.ParseEntryText | src/v1/genv_load_env.go:53-54 | A `key=value` text whose key and value hold no `=` parses back to that key and value |
| EnvFile.ParseCutsAtSecondEquals | src/v1/genv_load_env.go:53-54 | In `key=first=rest`, everything from the second `=` on is dropped |
| EnvFile.MergeLine | genv.go:152-153 | One loop step succeeds iff the line has `=` and the map is made; on a panic the map is unchanged |
| EnvFile.MergeLines | genv.go:151-154 | The loop over one or more lines panics on a nil map |
| EnvFile.MergeLinesSnoc | genv.go:151-154 | One more line is merged into the map the earlier lines left, unless they panicked |
| EnvFile.MergeLinesSucceeds | src/v1/genv_load_env.go:51-55 | The whole loop finishes without a panic iff every line has `=` and, unless there are no lines, the map is made; a nil map stays nil and a made map stays made |
| EnvFile.MergeStopsAtPanic | genv.go:151-154 | Once a line panics, the lines after it change nothing |
| EnvFile.MergeKeepsUntouched | genv.go:151-154 | A key that no line writes keeps its value from before Load |
| EnvFile.MergeLastWins | src/v1/genv_load_env.go:51-55 | When the loop succeeds, a key ends up with the value of the last line that writes it |
| EnvFile.MergeEntryText | genv.go:153 | Merging a saved `key=value` text into a made map sets that key |
| EnvFile.TextsSnoc | genv.go:92-98 | The saved texts of an order are those of its keys but the last, then the last key's text |
| EnvFile.MergeTextsStep | genv.go:151-154 | After a successful merge, one more saved `key=value` text sets that key |
| EnvFile.MergeTexts | genv.go:151-154 | Merging the saved texts in any order sets exactly the listed keys to their values, over the prior map |
| EnvFile.RestrictSnoc | genv.go:153 | Adding one more key to the merged keys is one map update |
| EnvFile.EntryTextIsPlainLine | genv.go:95 | A saved text whose key and value hold no newline or carriage return is a single scanned line |
| EnvFile.TextsArePlain | genv.go:92-98 | Every saved text of a plain map is a single scanned line |
| EnvFile.RestrictEnumerated | genv.go:93-97 | The keys Save enumerated, with their values, are exactly the non-empty entries |
| EnvFile.SaveLoadRoundTrip | src/v1/genv_load_env.go:51-55 | Loading what Save wrote into a made map overwrites it with exactly the saved non-empty entries, whatever the iteration order, provided keys and values hold no `=`, `\n` or `\r` |
| EnvFile.SaveLoadRoundTripFresh | src/v1/genv_save_env.go:30-44 | Loading what Save wrote into a fresh map gives back exactly the non-empty entries |
| EnvFile.EqualsInValueIsCut | src/v1/genv_save_env.go:33 | A value `first=rest` is saved, but Load reads it back as `first` |
| EnvFile.SingleEntryContent | genv.go:92-106 | Save's content for a single entry is `key=value` and a newline |
| EnvFile.NewlineInValueSplitsEntry | genv.go:95 | A value `first` + newline + `rest` is saved across two lines: Load sets the key to `first`, then panics on the line `rest`, which has no `=` |
| EnvFile.ScanTwoLines | genv.go:150-151 | Two plain lines, each followed by a newline, scan back as those two lines |
| EnvFile.MergeEntryThenBare | genv.go:151-154 | On a fresh map, an entry line and then a line without `=` leave that entry and a panic |
| EnvFile.CarriageReturnInValueIsDropped | genv.go:95 | A value ending in `\r` is saved, but Load reads it back without that `\r` |
| EnvFile.RenderAppend | genv.go:96 | Lines gathered for two runs of keys are the lines of the first run followed by those of the second |
| EnvFile.RemoveAt | genv.go:93 | Taking one element out of an order removes one copy of it from its multiset |
| EnvFile.LocateFirst | genv.go:93 | When two orders hold the same keys, the first key of one order sits somewhere in the other, and the remaining keys match up |
| EnvFile.RenderAround | genv.go:93-97 | The lines of an order start with its first key's line, and in another order that line sits between the lines of the keys before and after that key |
| EnvFile.MultisetMove | genv.go:93 | Moving one line from the front into the middle keeps the multiset of lines |
| EnvFile.RenderPermutation | genv.go:93-97 | Two orders with the same multiset of keys give the same multiset of lines |
| EnvFile.DistinctMultiset | genv.go:93 | A duplicate-free order holds every key once |
| EnvFile.SaveLinesOrderFree | src/v1/genv_save_env.go:30-36 | Any two iteration orders give the same multiset of lines, one line per non-empty entry |
| Genv.EnvDir | genv_init_linux.go:41 | The application directory is never empty, and it is `base/.NAME` for a non-empty base |
| Genv.EnvPath | genv_init_linux.go:48-49 | The file path is never empty and contains the application name, so the walk can find it |
| Genv.Discover | genv.go:131-138 | The walk never turns a set directory back into an empty one |
| Genv.DiscoverSnoc | genv.go:131-138 | The last visited path decides first: its parent when it contains the name, otherwise what the earlier paths left |
| Genv.DiscoverAt | genv.go:131-138 | When path j contains the name and no later path does, the directory is the parent of path j |
| Genv.DiscoverNone | genv.go:131-138 | When no visited path contains the name, the directory keeps its prior value |
| Genv.DiscoverLastMatch | genv.go:131-138 | With no path containing the name, the directory keeps its prior value; otherwise it is the parent of the last path that contains the name |
| Genv.DiscoverFindsInitFile | src/v1/genv_load_env.go:32-45 | When the walk visits the file Init created after every other match, Load finds Init's directory and opens Init's file |
| Genv.Store.DiscoverDir | src/v1/genv_load_env.go:32-39 | The walk callback applied to each visited path leaves the directory Discover describes |
| Genv.GatherLines | genv.go:92-98 | Save's gathering loop visits each non-empty entry once, in some order, and emits its `key=value\n` line in that order, one line per non-empty entry |
| Genv.PartialWrite | genv.go:102 | A write that reports `n` characters written put the first `n` characters of its line, or the whole line when it is shorter, in the file |
| Genv.WriteLines | genv.go:101-106 | The lines are written in turn; at the first failing write the file holds the lines before it and the characters that write managed, and the write error is returned; otherwise it holds all lines. Either way the file holds a prefix of the full content |
| Genv.MergeLinesStep | genv.go:151-154 | One more line through the loop is one more MergeLine |
| Genv.MergeLineSplits | genv.go:152-153 | A loop step splits at `=`, panics without piece 1 or on a nil map, and otherwise writes piece 0 := piece 1 |
| Genv.Store.MergeScanned | src/v1/genv_load_env.go:51-55 | The scanner loop leaves the map MergeLines describes and reports a panic exactly when MergeLines does |
| Genv.Store.Save | genv.go:75-109 | Empty directory or path: an error and the file is untouched. Nil map: success and the file is untouched. Failed create: that error. Otherwise one line per non-empty entry, in the iteration order, and the file truncated to those lines, or to the lines before the first failed write and the characters that write managed, together with that error. The store is not changed |
| Genv.Store.Load | genv.go:114-159 | Two or more directories, or a missing one: an error and nothing changes. Otherwise the directory is the walk's discovery. A walk error returns with the path and the map kept. Otherwise the path is `.NAME.env` inside the directory. A failed open keeps the map. Otherwise the map is the merge of the scanned lines, with a panic reported |
| Genv.Store.Init | genv_init_linux.go:15-57 | Two or more directories, no home, or a directory argument that is not a directory: an error and no change. Otherwise the directory is set to `base/.NAME` before Mkdir. A failed Mkdir leaves the path as it was. Otherwise the path is set and the file write decides the error. The map is never touched. Success leaves both non-empty, which passes Save's guard |
| Genv.SaveScenario | genv.go:75-109 | Init, two setters and Save produce content that loads back into exactly those two entries |
| Genv.RoundTripScenario | genv.go:114-159 | A fresh Load after that Save, with the default discovery, reads both values back |
| Genv.StalePathScenario | genv_init_linux.go:41-46 | A second Init whose Mkdir fails moves the directory but not the path, so the path no longer lies in the directory |
| Genv.AppName | genv_init_linux.go:18 | `app` normalises to `APP` |
| Genv.DemoName | genv.go:115 | `demo` normalises to `DEMO`, which holds no `/` |
| Genv.DemoEntries | src/v1/genv_create_var.go:15-17 | The scenario's two entries are plain and non-empty |
| Strconv.DigitChar | genv.go:56 | A digit value maps to the digit character with that value |

## Left out

- File system effects: `os.Stat`, `os.UserHomeDir`, `os.Mkdir`, `os.WriteFile`, `os.Create`, `os.Open`, `File.WriteString` and `file.Close` are not performed. Their outcomes are method parameters, and Save reports the file's new content as a value.
- The directory traversal of `filepath.WalkDir` is left out. The visited paths are a parameter, and so is whether the walk reports an error. With genv's callback, which always returns nil, WalkDir returns no error in practice.
- `CreateFloatVar` (genv.go:63-66, src/v1/genv_create_var.go:24-27) is left out: its shortest round-trip formatting of `float64` depends on floating point.
- `genv_init_windows.go` is not part of this model. Only the Linux Init is modelled.
- Strings.ToTitle: maps only ASCII `a`–`z` to upper case, because Go's full Unicode title-case table is left out.
- Filepath.Join: does not clean its result (`..`, `.`, repeated `/`), because the model assumes clean paths.
- Filepath.Dir: does not clean its result either, because the model assumes clean paths.
- Bufio.ScanLines: has no 64 KiB token limit, and the scanner's unchecked `Err` is left out. A longer line would end the loop silently in Go.
- Genv.PartialWrite: Go strings are byte strings, while the model's strings are sequences of characters, so `partial` counts characters, not bytes. A write that stops inside a multi-byte UTF-8 character, and keys, values or file content that are not valid UTF-8, are not represented. Splitting at `=`, `\n` and `\r` is unaffected, because UTF-8 never uses those bytes inside a multi-byte character.
- Genv.Store.Save: Go's map iteration order is modelled as an unspecified choice. The order taken is returned as a ghost value rather than fixed.
- Error values are reduced to one constructor per cause, so their messages are not modelled. Where `src/v1` returns a wrapped error instead of `genv.go`'s `errGenvWrite`, or the walk's own error instead of `errGenvInvalidDir`, the model does not distinguish them.
- Genv.Store.AddToEnvMap: requires a made map, because Go panics on writing to a nil map. The same holds for Genv.Store.CreateStringVar and Genv.Store.CreateIntVar.
- Genv.Store.CreateIntVar: covers Go's 64-bit `int` only (the `GoInt` range), not 32-bit platforms.
- The concurrency of the package-level variables (there is no locking in Go) is left out. The model is a single `Store` object.
