/**
 * The text and integer rules of the device-information reader
 * `ExtraInfo`: sentinel substitution for empty values, the post-processing of
 * a `getprop` query, the colon-delimited field lookup over `/proc/cpuinfo`
 * and `/proc/meminfo`, and the screen-density bucket.
 *
 * The shell helper that runs a command line is not part of this model; it
 * enters every operation as a parameter `shell` that maps a command line to
 * what the helper produced for it.
 */
module ExtraInfo {
  import opened JavaStrings

  /** The sentinel shown for any value that could not be read. */
  const Unknown: string := "unknown"

  /** A Java `String` reference, which may be null. */
  datatype JString = Null | Str(text: string)

  /** The two exceptions the class catches around a shell call. */
  datatype ShellError = IOException | SecurityException

  /** What the shell helper produced for one command line. */
  datatype ShellResult = Failed(error: ShellError) | Output(lines: seq<string>)

  /** The shell helper, as a map from a command line to its result. */
  type Shell = string -> ShellResult

  /** Runtime exceptions that escape from the class to its caller. */
  datatype Uncaught = IndexOutOfBoundsException | ArrayIndexOutOfBoundsException

  /** How a query ends: it returns a string, or an exception escapes. */
  datatype Outcome = Returned(value: string) | Threw(exception: Uncaught)

  /** The guard `s == null || s.length() == 0` the class puts before every lookup. */
  predicate IsNullOrEmpty(s: JString) {
    s.Null? || |s.text| == 0
  }

  /** Sentinel substitution (`gets`): an absent or empty value is shown as `Unknown`. */
  function Gets(s: JString): (r: string)
    ensures IsNullOrEmpty(s) ==> r == Unknown
    ensures !IsNullOrEmpty(s) ==> r == s.text
    ensures r != []
  {
    if IsNullOrEmpty(s) then Unknown else s.text
  }

  /** The command line `getProp` runs for a property name. */
  function PropCommand(name: string): string {
    "getprop " + name
  }

  /**
   * Java `s == "[]"` compares object identity, not content. The string it is
   * applied to is either the line object the shell helper produced or a
   * fresh substring of it made by `trim`; neither is the interned literal
   * `"[]"`, so the test never holds.
   */
  predicate IsInternedBrackets(s: string) {
    false
  }

  /**
   * `getProp`: no command for an absent or empty name; a caught shell failure
   * gives `Unknown`; otherwise the first output line, trimmed. An empty output
   * makes `get(0)` throw, and nothing catches it.
   */
  function GetProp(prop: JString, shell: Shell): (r: Outcome)
    ensures IsNullOrEmpty(prop) ==> r == Returned(Unknown)
    ensures r.Threw? <==> !IsNullOrEmpty(prop) && shell(PropCommand(prop.text)) == Output([])
    ensures r.Threw? ==> r.exception == IndexOutOfBoundsException
    ensures !IsNullOrEmpty(prop) && shell(PropCommand(prop.text)).Failed? ==> r == Returned(Unknown)
    ensures !IsNullOrEmpty(prop) && shell(PropCommand(prop.text)).Output? && shell(PropCommand(prop.text)).lines != [] ==>
              r == Returned(Trim(shell(PropCommand(prop.text)).lines[0]))
    ensures r.Returned? ==> Trimmed(r.value)
  {
    if IsNullOrEmpty(prop) then Returned(Unknown)
    else
      match shell(PropCommand(prop.text))
      case Failed(_) => Returned(Unknown)
      case Output(lines) =>
        if lines == [] then Threw(IndexOutOfBoundsException)
        else
          var s := Trim(lines[0]);
          TrimTrimmed(lines[0]);
          if IsInternedBrackets(s) then Returned(Unknown) else Returned(s)
  }

  /** The command line `getProc` runs for a pseudo-file name. */
  function ProcCommand(proc: string): string {
    "cat /proc/" + proc
  }

  /** The pseudo-file names the two field lookups read. */
  const CpuInfo: string := "cpuinfo"
  const MemInfo: string := "meminfo"

  /**
   * `getProc`: the lines of a `/proc` pseudo-file; empty for an absent or
   * empty name and for a caught shell failure.
   */
  function ReadProc(proc: JString, shell: Shell): (lines: seq<string>)
    ensures lines == [] || (!IsNullOrEmpty(proc) && shell(ProcCommand(proc.text)) == Output(lines))
    ensures !IsNullOrEmpty(proc) && shell(ProcCommand(proc.text)).Output? ==> lines == shell(ProcCommand(proc.text)).lines
  {
    if IsNullOrEmpty(proc) then []
    else
      match shell(ProcCommand(proc.text))
      case Failed(_) => []
      case Output(lines) => lines
  }

  /** The text before the first colon of a line, or the whole line when it has none. */
  function KeyOf(line: string): string {
    SplitOnce(line, ':')[0]
  }

  /** The text after the first colon of a line. */
  function ValueOf(line: string): string
    requires ':' in line
  {
    SplitOnce(line, ':')[1]
  }

  /** A line is a hit for `field` when its trimmed key equals `field` exactly. */
  predicate KeyMatches(line: string, field: string) {
    Trim(KeyOf(line)) == field
  }

  /**
   * The loop of `getProcCpuField` and `getProcMemField`: the trimmed value of
   * the first line whose trimmed key is `field`, `Unknown` when no line is.
   * A hit on a line without a colon reads `parts[1]` of a one-element array.
   */
  function FindField(lines: seq<string>, field: string): (r: Outcome)
    ensures r.Returned? ==> Trimmed(r.value)
    ensures r.Threw? ==> r.exception == ArrayIndexOutOfBoundsException
  {
    if lines == [] then Returned(Unknown)
    else
      var parts := SplitOnce(lines[0], ':');
      if Trim(parts[0]) == field then
        if |parts| < 2 then Threw(ArrayIndexOutOfBoundsException)
        else TrimTrimmed(parts[1]); Returned(Trim(parts[1]))
      else FindField(lines[1..], field)
  }

  /**
   * `getProcCpuField` (with `proc` = `CpuInfo`) and `getProcMemField` (with
   * `proc` = `MemInfo`), which share one body.
   */
  method ProcField(proc: string, field: JString, shell: Shell) returns (r: Outcome)
    ensures IsNullOrEmpty(field) ==> r == Returned(Unknown)
    ensures !IsNullOrEmpty(field) ==> r == FindField(ReadProc(Str(proc), shell), field.text)
  {
    if IsNullOrEmpty(field) {
      return Returned(Unknown);
    }
    var lines := ReadProc(Str(proc), shell);
    for i := 0 to |lines|
      invariant FindField(lines[i..], field.text) == FindField(lines, field.text)
    {
      assert lines[i..][1..] == lines[i + 1..];
      var parts := SplitOnce(lines[i], ':');
      if Trim(parts[0]) == field.text {
        if |parts| < 2 {
          return Threw(ArrayIndexOutOfBoundsException);
        }
        return Returned(Trim(parts[1]));
      }
    }
    return Returned(Unknown);
  }

  /** `getProcCpuField`: the field lookup over `/proc/cpuinfo`. */
  method ProcCpuField(field: JString, shell: Shell) returns (r: Outcome)
    ensures IsNullOrEmpty(field) ==> r == Returned(Unknown)
    ensures !IsNullOrEmpty(field) ==> r == FindField(ReadProc(Str(CpuInfo), shell), field.text)
  {
    r := ProcField(CpuInfo, field, shell);
  }

  /** `getProcMemField`: the field lookup over `/proc/meminfo`. */
  method ProcMemField(field: JString, shell: Shell) returns (r: Outcome)
    ensures IsNullOrEmpty(field) ==> r == Returned(Unknown)
    ensures !IsNullOrEmpty(field) ==> r == FindField(ReadProc(Str(MemInfo), shell), field.text)
  {
    r := ProcField(MemInfo, field, shell);
  }

  /** The density bucket names, lowest density first. */
  const DensityNames: seq<string> := ["LDPI", "MDPI", "HDPI", "XHDPI", "XXHDPI", "XXXHDPI"]

  /** The inclusive upper bound of each bucket of `DensityNames`. */
  const DensityUpperBounds: seq<int> := [159, 239, 319, 479, 639, 799]

  /** `getDisplayDensity`, applied to `n`, the truncated value of `160 * density`. */
  function DensityBucket(n: int): (r: string)
    ensures r in DensityNames || r == Unknown
  {
    if n <= 159 then "LDPI"
    else if n <= 239 then "MDPI"
    else if n <= 319 then "HDPI"
    else if n <= 479 then "XHDPI"
    else if n <= 639 then "XXHDPI"
    else if n <= 799 then "XXXHDPI"
    else Unknown
  }
}
