/**
 * Properties of the `ExtraInfo` model that relate several calls: sentinel
 * substitution is idempotent, `getprop` output post-processing looks at the
 * first line only, the field lookup is a first-match search in file order,
 * and the density buckets partition the integers in ascending order.
 */
module ExtraInfoProperties {
  import opened JavaStrings
  import opened ExtraInfo

  // ---------------------------------------------------------------- gets

  /** Substituting the sentinel twice is the same as once. */
  lemma GetsIdempotent(s: JString)
    ensures Gets(Str(Gets(s))) == Gets(s)
  {
  }

  // ------------------------------------------------------------- getProp

  /** An absent or empty property name never reaches the shell. */
  lemma GetPropNoCommandForEmptyName(prop: JString, shell1: Shell, shell2: Shell)
    requires IsNullOrEmpty(prop)
    ensures GetProp(prop, shell1) == GetProp(prop, shell2) == Returned(Unknown)
  {
  }

  /** `getProp` looks at no command other than `getprop <name>`. */
  lemma GetPropReadsOnlyItsCommand(prop: JString, shell1: Shell, shell2: Shell)
    requires !IsNullOrEmpty(prop)
    requires shell1(PropCommand(prop.text)) == shell2(PropCommand(prop.text))
    ensures GetProp(prop, shell1) == GetProp(prop, shell2)
  {
  }

  /** Lines after the first one never affect the result. */
  lemma GetPropIgnoresLaterLines(name: string, first: string, rest1: seq<string>, rest2: seq<string>,
                                 shell1: Shell, shell2: Shell)
    requires name != []
    requires shell1(PropCommand(name)) == Output([first] + rest1)
    requires shell2(PropCommand(name)) == Output([first] + rest2)
    ensures GetProp(Str(name), shell1) == GetProp(Str(name), shell2) == Returned(Trim(first))
  {
  }

  /**
   * The `"[]"` guard compares references, so a property whose value prints
   * as `[]` comes back as `"[]"` rather than as `Unknown`.
   */
  lemma GetPropPassesBracketsThrough(name: string, rest: seq<string>, shell: Shell)
    requires name != []
    requires shell(PropCommand(name)) == Output(["[]"] + rest)
    ensures GetProp(Str(name), shell) == Returned("[]")
  {
    TrimOfTrimmed("[]");
  }

  /**
   * A command that prints nothing makes `get(0)` throw; only `IOException`
   * and `SecurityException` are caught, so the exception escapes.
   */
  lemma GetPropEmptyOutputThrows(name: string, shell: Shell)
    requires name != []
    requires shell(PropCommand(name)) == Output([])
    ensures GetProp(Str(name), shell) == Threw(IndexOutOfBoundsException)
  {
  }

  // ------------------------------------------------- getProcCpu/MemField

  /** No line before index `i` has a trimmed key equal to `field`. */
  ghost predicate NoHitBefore(lines: seq<string>, field: string, i: int)
    requires 0 <= i <= |lines|
  {
    forall j :: 0 <= j < i ==> !KeyMatches(lines[j], field)
  }

  /** `i` is the first line matching `field`, or `|lines|` when none does. */
  ghost predicate IsFirstHit(lines: seq<string>, field: string, i: int) {
    0 <= i <= |lines| && NoHitBefore(lines, field, i) &&
    (i < |lines| ==> KeyMatches(lines[i], field))
  }

  /** What the lookup does once it reaches line `i` as its first hit (or the end). */
  ghost function OutcomeAt(lines: seq<string>, i: int): Outcome
    requires 0 <= i <= |lines|
  {
    if i == |lines| then Returned(Unknown)
    else if ':' in lines[i] then Returned(Trim(ValueOf(lines[i])))
    else Threw(ArrayIndexOutOfBoundsException)
  }

  /**
   * The lookup is decided by the first matching line: its trimmed value when
   * it has a colon, an escaping `ArrayIndexOutOfBoundsException` when it has
   * none, and `Unknown` when no line matches.
   */
  lemma {:induction false} FindFieldAtFirstHit(lines: seq<string>, field: string, i: int)
    requires IsFirstHit(lines, field, i)
    ensures FindField(lines, field) == OutcomeAt(lines, i)
  {
    if lines != [] && i > 0 {
      assert !KeyMatches(lines[0], field);
      var tail := lines[1..];
      forall j | 0 <= j < i - 1
        ensures !KeyMatches(tail[j], field)
      {
        assert tail[j] == lines[j + 1];
      }
      FindFieldAtFirstHit(tail, field, i - 1);
    }
  }

  /** Every line sequence has a first hit (possibly at its end). */
  lemma {:induction false} FirstHitExists(lines: seq<string>, field: string) returns (i: int)
    ensures IsFirstHit(lines, field, i)
  {
    if lines == [] || KeyMatches(lines[0], field) {
      i := 0;
    } else {
      var k := FirstHitExists(lines[1..], field);
      i := k + 1;
      forall j | 0 <= j < i
        ensures !KeyMatches(lines[j], field)
      {
        if j > 0 { assert lines[j] == lines[1..][j - 1]; }
      }
    }
  }

  /**
   * Whatever the lookup returns is explained by the first matching line:
   * it is never a value from a later match.
   */
  lemma FindFieldExplained(lines: seq<string>, field: string)
    ensures exists i :: IsFirstHit(lines, field, i) && FindField(lines, field) == OutcomeAt(lines, i)
  {
    var i := FirstHitExists(lines, field);
    FindFieldAtFirstHit(lines, field, i);
  }

  /**
   * The first line of the form `prefix + ":" + suffix`, with no colon in
   * `prefix` and `Trim(prefix) == field`, gives `Trim(suffix)`; further
   * colons stay in the value.
   */
  lemma FindFieldAtSplitLine(lines: seq<string>, field: string, i: int, prefix: string, suffix: string)
    requires 0 <= i < |lines| && NoHitBefore(lines, field, i)
    requires lines[i] == prefix + ":" + suffix && ':' !in prefix && Trim(prefix) == field
    ensures FindField(lines, field) == Returned(Trim(suffix))
  {
    SplitOnceAt(prefix, ':', suffix);
    FindFieldAtFirstHit(lines, field, i);
  }

  /** No line matches: the lookup gives the sentinel. */
  lemma FindFieldNoHit(lines: seq<string>, field: string)
    requires NoHitBefore(lines, field, |lines|)
    ensures FindField(lines, field) == Returned(Unknown)
  {
    FindFieldAtFirstHit(lines, field, |lines|);
  }

  /** Once a line matches, lines appended after it are never looked at. */
  lemma {:induction false} FindFieldIgnoresAfterHit(lines: seq<string>, more: seq<string>, field: string, i: int)
    requires 0 <= i < |lines| && KeyMatches(lines[i], field)
    ensures FindField(lines + more, field) == FindField(lines, field)
  {
    if !KeyMatches(lines[0], field) {
      assert (lines + more)[1..] == lines[1..] + more;
      FindFieldIgnoresAfterHit(lines[1..], more, field, i - 1);
    }
  }

  /** Lines that do not match are skipped: the search goes on in file order. */
  lemma {:induction false} FindFieldSkipsMisses(lines: seq<string>, more: seq<string>, field: string)
    requires NoHitBefore(lines, field, |lines|)
    ensures FindField(lines + more, field) == FindField(more, field)
  {
    if lines != [] {
      assert !KeyMatches(lines[0], field);
      assert (lines + more)[1..] == lines[1..] + more;
      assert forall j :: 0 <= j < |lines| - 1 ==> lines[1..][j] == lines[j + 1];
      FindFieldSkipsMisses(lines[1..], more, field);
    } else {
      assert lines + more == more;
    }
  }

  /**
   * A colon-less line whose whole trimmed text is `field`, reached first,
   * makes `parts[1]` fail and the exception escapes.
   */
  lemma FindFieldBareKeyThrows(line: string, rest: seq<string>, field: string)
    requires ':' !in line && Trim(line) == field
    ensures FindField([line] + rest, field) == Threw(ArrayIndexOutOfBoundsException)
  {
    assert ([line] + rest)[0] == line;
  }

  /** An unreadable pseudo-file gives the sentinel for every field. */
  lemma ProcFieldUnreadable(proc: string, field: string, shell: Shell)
    requires shell(ProcCommand(proc)).Failed?
    ensures FindField(ReadProc(Str(proc), shell), field) == Returned(Unknown)
  {
  }

  /** The first line of the cpuinfo example has the key `model name`. */
  lemma ModelNameLineKey()
    ensures Trim(KeyOf("model name : X86")) == "model name"
  {
    assert "model name : X86" == "model name " + ":" + " X86";
    SplitOnceAt("model name ", ':', " X86");
    TrimOfPadded("", "model name", " ");
    assert "" + "model name" + " " == "model name ";
  }

  /** The second line of the cpuinfo example, taken apart. */
  lemma CpuCoresLineParts()
    ensures "cpu cores : 4" == "cpu cores " + ":" + " 4" && ':' !in "cpu cores "
    ensures Trim("cpu cores ") == "cpu cores" && Trim(" 4") == "4"
  {
    TrimOfPadded("", "cpu cores", " ");
    assert "" + "cpu cores" + " " == "cpu cores ";
    TrimOfPadded(" ", "4", "");
    assert " " + "4" + "" == " 4";
  }

  /** The cpuinfo example: a later line is found past an earlier, different key. */
  lemma FindFieldCpuCoresExample()
    ensures FindField(["model name : X86", "cpu cores : 4"], "cpu cores") == Returned("4")
  {
    var lines := ["model name : X86", "cpu cores : 4"];
    ModelNameLineKey();
    assert NoHitBefore(lines, "cpu cores", 1);
    CpuCoresLineParts();
    FindFieldAtSplitLine(lines, "cpu cores", 1, "cpu cores ", " 4");
  }

  /** The key of the meminfo line is `MemTotal`. */
  lemma MemTotalLineKey()
    ensures Trim(KeyOf("MemTotal: 2048 kB")) == "MemTotal"
  {
    assert "MemTotal: 2048 kB" == "MemTotal" + ":" + " 2048 kB";
    SplitOnceAt("MemTotal", ':', " 2048 kB");
    TrimOfTrimmed("MemTotal");
  }

  /** Key matching is case-sensitive: `memtotal` does not find `MemTotal`. */
  lemma FindFieldCaseSensitiveExample()
    ensures FindField(["MemTotal: 2048 kB"], "memtotal") == Returned(Unknown)
  {
    MemTotalLineKey();
    FindFieldNoHit(["MemTotal: 2048 kB"], "memtotal");
  }

  /** The address-sizes line has its first colon after `address sizes `. */
  lemma AddressSizesLineSplit()
    ensures "address sizes : 36 bits: 48 bits" == "address sizes " + ":" + " 36 bits: 48 bits"
    ensures ':' !in "address sizes "
  {
  }

  /** The key of the address-sizes line, trimmed. */
  lemma AddressSizesKeyTrim()
    ensures Trim("address sizes ") == "address sizes"
  {
    TrimOfPadded("", "address sizes", " ");
    assert "" + "address sizes" + " " == "address sizes ";
  }

  /** The value of the address-sizes line, trimmed. */
  lemma AddressSizesValueTrim()
    ensures Trim(" 36 bits: 48 bits") == "36 bits: 48 bits"
  {
    TrimOfPadded(" ", "36 bits: 48 bits", "");
    assert " " + "36 bits: 48 bits" + "" == " 36 bits: 48 bits";
  }

  /** Only the first colon splits: the value keeps the rest of the line. */
  lemma FindFieldKeepsLaterColonsExample()
    ensures FindField(["address sizes : 36 bits: 48 bits"], "address sizes") == Returned("36 bits: 48 bits")
  {
    AddressSizesLineSplit();
    AddressSizesKeyTrim();
    AddressSizesValueTrim();
    FindFieldAtSplitLine(["address sizes : 36 bits: 48 bits"], "address sizes", 0, "address sizes ", " 36 bits: 48 bits");
  }

  // --------------------------------------------------- getDisplayDensity

  /**
   * Reference definition of the bucket index: the position of the first
   * bound that `n` does not exceed, or `|bounds|` when it exceeds them all.
   */
  function BucketIndex(n: int, bounds: seq<int>): (k: nat)
    ensures k <= |bounds|
    ensures k < |bounds| ==> n <= bounds[k]
    ensures forall j :: 0 <= j < k ==> bounds[j] < n
  {
    if bounds == [] || n <= bounds[0] then 0 else 1 + BucketIndex(n, bounds[1..])
  }

  /** The name of bucket `k`; the sentinel past the last bucket. */
  function BucketName(k: nat): string {
    if k < |DensityNames| then DensityNames[k] else Unknown
  }

  /** The bucket name the table gives for `n`. */
  function DensityByTable(n: int): string {
    BucketName(BucketIndex(n, DensityUpperBounds))
  }

  /** The chain of comparisons in `getDisplayDensity` is the table lookup. */
  lemma DensityBucketIsTableLookup(n: int)
    ensures DensityBucket(n) == DensityByTable(n)
  {
    var k := BucketIndex(n, DensityUpperBounds);
    assert k == 0 || DensityUpperBounds[k - 1] < n;
  }

  /** Each bucket is exactly the interval between two consecutive bounds. */
  lemma DensityBucketInterval(n: int, k: int)
    requires 0 <= k < |DensityNames|
    ensures DensityBucket(n) == DensityNames[k] <==>
            (k == 0 || DensityUpperBounds[k - 1] < n) && n <= DensityUpperBounds[k]
  {
  }

  /** Above the last bound, and only there, the bucket is the sentinel. */
  lemma DensityBucketUnknown(n: int)
    ensures DensityBucket(n) == Unknown <==> n > 799
  {
  }

  /** The rank of a bucket name: its position in `DensityNames`, `|DensityNames|` for the sentinel. */
  function DensityRank(name: string): nat {
    if name == "LDPI" then 0
    else if name == "MDPI" then 1
    else if name == "HDPI" then 2
    else if name == "XHDPI" then 3
    else if name == "XXHDPI" then 4
    else if name == "XXXHDPI" then 5
    else 6
  }

  /** Ranking a bucket name gives back its index. */
  lemma DensityRankOfName(k: nat)
    requires k <= |DensityNames|
    ensures DensityRank(BucketName(k)) == k
  {
    if k == |DensityNames| {
      assert BucketName(k) == Unknown;
    } else {
      assert BucketName(k) == DensityNames[k];
    }
  }

  /** The bucket index never decreases as `n` grows. */
  lemma BucketIndexMonotone(n: int, m: int, bounds: seq<int>)
    requires n <= m
    ensures BucketIndex(n, bounds) <= BucketIndex(m, bounds)
  {
  }

  /** A higher density never lands in a lower bucket. */
  lemma DensityBucketMonotone(n: int, m: int)
    requires n <= m
    ensures DensityRank(DensityBucket(n)) <= DensityRank(DensityBucket(m))
  {
    DensityBucketIsTableLookup(n);
    DensityBucketIsTableLookup(m);
    BucketIndexMonotone(n, m, DensityUpperBounds);
    DensityRankOfName(BucketIndex(n, DensityUpperBounds));
    DensityRankOfName(BucketIndex(m, DensityUpperBounds));
  }

  /** Density factors 1.0 and 3.0 give 160 and 480. */
  lemma DensityExamples()
    ensures DensityBucket(160) == "MDPI" && DensityBucket(480) == "XXHDPI"
  {
  }
}
