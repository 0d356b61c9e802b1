# ExtraInfo text and integer rules, in Dafny

`ExtraInfo` (src/com/android/settings/du/extrainfo/ExtraInfo.java) is the
device-information reader of the Dirty Unicorns Settings app. Most of the
class reads the Android platform or does floating-point display arithmetic.
Its own logic is a handful of small text and integer rules, and this project
models those rules and proves what they promise:

- **sentinel substitution** (`gets`): a null or empty value is shown as
  `"unknown"`;
- **property queries** (`getProp`): run `getprop <name>` through the shell
  helper and trim the first output line. Shell failures (`IOException`,
  `SecurityException`) give `"unknown"`;
- **pseudo-file reads** (`getProc`): the lines of `cat /proc/<name>`, or no
  lines on any caught failure;
- **field lookup** (`getProcCpuField`, `getProcMemField`, one shared body):
  the first line of `/proc/cpuinfo` or `/proc/meminfo` whose key before the
  first colon, trimmed, equals the requested field. The result is that
  line's trimmed remainder, or `"unknown"` when no line matches;
- **density bucket** (`getDisplayDensity`): the integer `(int)(160 * density)`
  is classified into LDPI … XXXHDPI, or `"unknown"` above 799.

Files:

- `java_strings.dfy` (module `JavaStrings`): `String.trim` (strip every
  character at or below U+0020 from both ends) and `split(":", 2)`. Each
  comes with a characterisation that does not depend on how it is computed.
- `extra_info.dfy` (module `ExtraInfo`): the operations. The shell helper
  enters as a parameter `shell: string -> ShellResult`, which maps a command
  line to `Failed(IOException | SecurityException)` or `Output(lines)`. A
  Java `null` string is `JString.Null`. A query ends in
  `Returned(value)`, or in `Threw(exception)` when a runtime exception
  escapes the class.
- `extra_info_properties.dfy` (module `ExtraInfoProperties`): lemmas that
  relate several calls. These cover first-match search in file order,
  independence from the shell when there is no name, and the density
  partition with its monotonicity.
- `extra_info_intended.dfy` (module `ExtraInfoIntended`): corrected versions
  of the two queries whose code does not do what the class evidently means
  (see "## Findings"). Each comes with its agreement lemma.

The class means every failure to end as the sentinel `UNKNOWN` (line 33):
`getProp` starts from it and keeps it when the shell call fails (lines
46-49), the `"[]"` guard returns it (line 50), `getProc` swallows the same
failures into an empty list (lines 101-103), and the field lookups return it
when no line matches (lines 113, 122). The model follows the
code as written, so it keeps the places where the code falls short of that
intent: the `"[]"` guard compares references and never fires, and an empty
`getprop` output or a colon-less line that names the requested field each
raise an exception that escapes the class (see "## Findings").

## Model

| member | source | states |
|---|---|---|
| `ExtraInfo.Gets` | src/com/android/settings/du/extrainfo/ExtraInfo.java:60-62 | a null or empty value becomes `"unknown"`; any other value is returned unchanged; the result is never empty |
| `ExtraInfoProperties.GetsIdempotent` | src/com/android/settings/du/extrainfo/ExtraInfo.java:60-62 | applying the substitution to its own result changes nothing |
| `ExtraInfo.GetProp` | src/com/android/settings/du/extrainfo/ExtraInfo.java:44-52 | null/empty name gives `"unknown"`; a caught shell failure gives `"unknown"`; an exception escapes exactly when the name is non-empty and `getprop` printed no line, and it is `IndexOutOfBoundsException`; otherwise the result is the trimmed first line, which has no trimmable character at either end |
| `ExtraInfoProperties.GetPropNoCommandForEmptyName` | src/com/android/settings/du/extrainfo/ExtraInfo.java:45 | with a null or empty name the result is `"unknown"` whatever the shell would do |
| `ExtraInfoProperties.GetPropReadsOnlyItsCommand` | src/com/android/settings/du/extrainfo/ExtraInfo.java:47 | two shells that agree on `getprop <name>` give the same result |
| `ExtraInfoProperties.GetPropIgnoresLaterLines` | src/com/android/settings/du/extrainfo/ExtraInfo.java:47 | only the first output line matters; the result is its trim |
| `ExtraInfoProperties.GetPropPassesBracketsThrough` | src/com/android/settings/du/extrainfo/ExtraInfo.java:50-51 | because `==` compares references, a first line `[]` is returned as `"[]"`, not as `"unknown"` |
| `ExtraInfoProperties.GetPropEmptyOutputThrows` | src/com/android/settings/du/extrainfo/ExtraInfo.java:47-49 | an empty `getprop` output makes `get(0)` throw, and the exception is not caught |
| `ExtraInfo.ReadProc` | src/com/android/settings/du/extrainfo/ExtraInfo.java:98-105 | the result is empty, or it is exactly the output of `cat /proc/<name>` for a non-empty name; a successful read is returned unchanged, so null/empty names and caught failures give no lines |
| `ExtraInfo.FindField` | src/com/android/settings/du/extrainfo/ExtraInfo.java:109-113 | a returned value never has a trimmable character at either end; the only exception the loop can raise is `ArrayIndexOutOfBoundsException` |
| `ExtraInfo.ProcField` | src/com/android/settings/du/extrainfo/ExtraInfo.java:106-123 | the for-loop of `getProcCpuField`/`getProcMemField`: a null or empty field gives `"unknown"`; otherwise the loop ends as `FindField` over the lines `getProc` read |
| `ExtraInfo.ProcCpuField` | src/com/android/settings/du/extrainfo/ExtraInfo.java:106-114 | `getProcCpuField`: a null or empty field gives `"unknown"`; otherwise the result is the field lookup over the lines of `cat /proc/cpuinfo` |
| `ExtraInfo.ProcMemField` | src/com/android/settings/du/extrainfo/ExtraInfo.java:115-123 | `getProcMemField`: a null or empty field gives `"unknown"`; otherwise the result is the field lookup over the lines of `cat /proc/meminfo` |
| `ExtraInfoProperties.FindFieldAtFirstHit` | src/com/android/settings/du/extrainfo/ExtraInfo.java:109-113 | the lookup is decided by the first line whose trimmed key equals the field. If that line has a colon, the result is the trim of the text after its first colon; if it has none, `ArrayIndexOutOfBoundsException` escapes; if no line matches, the result is `"unknown"` |
| `ExtraInfoProperties.FirstHitExists` | src/com/android/settings/du/extrainfo/ExtraInfo.java:109 | every line sequence has a first matching line or none; the scan is in file order |
| `ExtraInfoProperties.FindFieldExplained` | src/com/android/settings/du/extrainfo/ExtraInfo.java:109-113 | every outcome of the lookup is the one its first matching line (or the end of the list) dictates |
| `ExtraInfoProperties.FindFieldAtSplitLine` | src/com/android/settings/du/extrainfo/ExtraInfo.java:110-111 | for the first matching line `prefix + ":" + suffix` with no colon in `prefix` and `Trim(prefix) == field`, the result is `Trim(suffix)`; later colons stay in the value |
| `ExtraInfoProperties.FindFieldNoHit` | src/com/android/settings/du/extrainfo/ExtraInfo.java:113 | when no line's trimmed key equals the field, the result is `"unknown"` |
| `ExtraInfoProperties.FindFieldIgnoresAfterHit` | src/com/android/settings/du/extrainfo/ExtraInfo.java:109-111 | after a matching line, appended lines never change the result (first match wins) |
| `ExtraInfoProperties.FindFieldSkipsMisses` | src/com/android/settings/du/extrainfo/ExtraInfo.java:109-112 | lines that do not match, with or without a colon, are skipped: the result is that of the remaining lines |
| `ExtraInfoProperties.FindFieldBareKeyThrows` | src/com/android/settings/du/extrainfo/ExtraInfo.java:110-111 | a colon-less line whose trimmed text equals the field, reached first, raises `ArrayIndexOutOfBoundsException` |
| `ExtraInfoProperties.ProcFieldUnreadable` | src/com/android/settings/du/extrainfo/ExtraInfo.java:101-104 | when the pseudo-file cannot be read, the lookup gives `"unknown"` for every field |
| `ExtraInfoProperties.FindFieldCpuCoresExample` | src/com/android/settings/du/extrainfo/ExtraInfo.java:130 | lines `model name : X86`, `cpu cores : 4` and field `cpu cores` give `"4"` |
| `ExtraInfoProperties.FindFieldCaseSensitiveExample` | src/com/android/settings/du/extrainfo/ExtraInfo.java:111 | keys are compared with `equals`: `memtotal` does not find `MemTotal` |
| `ExtraInfoProperties.FindFieldKeepsLaterColonsExample` | src/com/android/settings/du/extrainfo/ExtraInfo.java:110 | with split limit 2, the value `36 bits: 48 bits` keeps its colon |
| `ExtraInfo.DensityBucket` | src/com/android/settings/du/extrainfo/ExtraInfo.java:199-207 | the result is one of the six bucket names or `"unknown"` |
| `ExtraInfoProperties.DensityBucketIsTableLookup` | src/com/android/settings/du/extrainfo/ExtraInfo.java:199-207 | the chain of six comparisons equals a table lookup: the name of the first upper bound (159, 239, 319, 479, 639, 799) that `n` does not exceed, or `"unknown"` |
| `ExtraInfoProperties.DensityBucketInterval` | src/com/android/settings/du/extrainfo/ExtraInfo.java:200-205 | bucket k is returned exactly when `n` lies above bound k-1 and at or below bound k, so the buckets are disjoint intervals |
| `ExtraInfoProperties.DensityBucketUnknown` | src/com/android/settings/du/extrainfo/ExtraInfo.java:205-206 | `"unknown"` is returned exactly when `n > 799`; with the intervals, every integer falls in exactly one class |
| `ExtraInfoProperties.DensityBucketMonotone` | src/com/android/settings/du/extrainfo/ExtraInfo.java:200-206 | a larger `n` never gives a lower bucket |
| `ExtraInfoProperties.DensityExamples` | src/com/android/settings/du/extrainfo/ExtraInfo.java:201-204 | 160 is MDPI and 480 is XXHDPI |
| `JavaStrings.TrimSpec` | src/com/android/settings/du/extrainfo/ExtraInfo.java:111 | `trim` keeps a contiguous middle part with only characters ≤ U+0020 removed around it and none left at its ends |
| `JavaStrings.TrimUnique` | src/com/android/settings/du/extrainfo/ExtraInfo.java:111 | that description determines `trim`'s result uniquely |
| `JavaStrings.TrimIdempotent` | src/com/android/settings/du/extrainfo/ExtraInfo.java:47 | trimming twice is trimming once |
| `JavaStrings.SplitOnce` | src/com/android/settings/du/extrainfo/ExtraInfo.java:110 | `split(":", 2)` gives two parts exactly when the line has a colon; otherwise its one part is the whole line |
| `JavaStrings.SplitOnceJoin` | src/com/android/settings/du/extrainfo/ExtraInfo.java:110 | with a colon, the first part has no colon, and the first part, a colon and the second part give the line back |
| `JavaStrings.SplitOnceAt` | src/com/android/settings/du/extrainfo/ExtraInfo.java:110 | for `pre + ":" + post` with no colon in `pre`, the parts are exactly `pre` and `post` |
| `ExtraInfoIntended.GetPropIntended` | src/com/android/settings/du/extrainfo/ExtraInfo.java:44-52 | corrected `getProp`: never throws, never returns `"[]"`, always returns a trimmed string, and gives `"unknown"` for a null/empty name or an empty output |
| `ExtraInfoIntended.GetPropIntendedAgrees` | src/com/android/settings/du/extrainfo/ExtraInfo.java:44-52 | the corrected `getProp` returns what the original returns whenever that is not `"[]"`, and `"unknown"` where the original throws |
| `ExtraInfoIntended.GetPropIntendedHidesBrackets` | src/com/android/settings/du/extrainfo/ExtraInfo.java:50 | a first output line `[]` is shown as `"unknown"` |
| `ExtraInfoIntended.FindFieldIntended` | src/com/android/settings/du/extrainfo/ExtraInfo.java:109-113 | corrected lookup: it always returns a string, and that string is trimmed; which string is stated by `FindFieldIntendedFirstColonHit` and `FindFieldIntendedNoHit` |
| `ExtraInfoIntended.FindFieldIntendedAgrees` | src/com/android/settings/du/extrainfo/ExtraInfo.java:109-113 | wherever the original lookup returns, the corrected one returns the same value |
| `ExtraInfoIntended.FindFieldIntendedNoHit` | src/com/android/settings/du/extrainfo/ExtraInfo.java:109-113 | when no line has both a colon and a trimmed key equal to the field, the corrected lookup gives `"unknown"` |
| `ExtraInfoIntended.FindFieldIntendedSkipsBareKey` | src/com/android/settings/du/extrainfo/ExtraInfo.java:110-111 | a colon-less line is skipped by the corrected lookup |
| `ExtraInfoIntended.FindFieldIntendedFirstColonHit` | src/com/android/settings/du/extrainfo/ExtraInfo.java:109-111 | the corrected lookup returns `Trim(suffix)` for the first line `prefix + ":" + suffix` whose trimmed prefix is the field |

## Left out

- `ExtraInfoLib.shellExec`, `scaleData` and `round` are not part of this model. The shell helper is a parameter mapping a command line to a failure or a list of lines. Exceptions other than `IOException`/`SecurityException`, a null list and null lines are not modelled.
- `getBuildManufacturer` … `getBuildDisplay` (lines 37-42) read `Build.*` static fields. Those fields are platform input; what the getters add is `gets`, which is modelled as `ExtraInfo.Gets`.
- `getPropName`, `getPropHardware` and `getPropCpuAbi2` (lines 94-96) are `GetProp` applied to fixed names. They are not modelled as separate members.
- `getProcCpuInfo` and `getProcMemInfo` (lines 125, 134) are `ReadProc` of `cpuinfo` and `meminfo`. The named shortcuts `getProcCpuModelName` … `getProcCached()` (lines 127-136, 147, 158) are `ProcField` with fixed field names. None of these is a separate member.
- `getSystemSize`/`getDataSize` (lines 65-92) use `StatFs` filesystem statistics and the unseen `scaleData`/`round` on `double`s.
- `getProcRamTotal/Free/Cached(scale)` (lines 138-167) parse with `Double.valueOf` and call the unseen `scaleData`. This is floating point in foreign code.
- Display width/height/diagonal in inches (lines 170-188) use float division, `Math.sqrt`/`Math.pow` and locale-dependent `NumberFormat`. The raw display getters (lines 189-198) and the constructor (lines 54-58) are platform reads with no logic.
- `getDisplayDensity` computes `(int)(160 * density)` in floating point (line 200). The model takes that integer as its input `n`.
- `ExtraInfo.DensityBucket`: its own contract only says the result is a bucket name or `"unknown"`. The exact intervals, the partition and monotonicity are stated in the `ExtraInfoProperties` density lemmas.

## Findings

| source | as written | input that shows it | evidently intended | confidence | as-written member | corrected member |
|---|---|---|---|---|---|---|
| src/com/android/settings/du/extrainfo/ExtraInfo.java:50 | `s == "[]"` compares object identity. The trimmed line is never the interned literal, so the guard never fires | `getprop <name>` prints the line `[]`; `getProp` returns `"[]"` | compare content (`equals`) and return `"unknown"` | not executed; depends on the shell helper returning strings read from the process rather than interned literals | `ExtraInfoProperties.GetPropPassesBracketsThrough` | `ExtraInfoIntended.GetPropIntended` |
| src/com/android/settings/du/extrainfo/ExtraInfo.java:47-49 | `.get(0)` on an empty output list throws `IndexOutOfBoundsException`, and only `IOException`/`SecurityException` are caught | `getprop <name>` prints nothing; the exception reaches the caller | return `"unknown"`, like every other failure | not executed | `ExtraInfoProperties.GetPropEmptyOutputThrows` | `ExtraInfoIntended.GetPropIntended` |
| src/com/android/settings/du/extrainfo/ExtraInfo.java:110-111 | `parts[1]` is read without checking that the line had a colon | lines `["flags"]`, field `flags`; `ArrayIndexOutOfBoundsException` reaches the caller (same at lines 119-120 for meminfo) | skip a line that has no value part | not executed | `ExtraInfoProperties.FindFieldBareKeyThrows` | `ExtraInfoIntended.FindFieldIntended` |
