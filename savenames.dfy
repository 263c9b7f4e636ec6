/** The file names of the two save buttons of the progress and measurement
    tools (`write_csv_new` for "Save As...", `write_csv_overwrite` for
    "Save"): the old suffixes are stripped from the loaded file's base name,
    and the range, the sanitised hostname and a timestamp are appended.
    The timestamp (`datetime.now().strftime("%Y%m%d_%H%M%S")`) is a
    parameter, and the files already on disk are a set of paths. */
module SaveNames {

  import opened Wrappers
  import opened Text
  import opened Frames
  import opened Dicts
  import opened Duration
  import opened Preamble
  import opened Stores
  import RowSets

  // ------------------------------------------------------------------
  // os.path

  function LastIndexOf(s: string, c: char): (r: Option<nat>)
    ensures r.Some? ==> r.value < |s| && s[r.value] == c && forall j | r.value < j < |s| :: s[j] != c
    ensures r.None? ==> forall j | 0 <= j < |s| :: s[j] != c
    decreases |s|
  {
    if s == [] then None
    else if s[|s| - 1] == c then Some(|s| - 1)
    else LastIndexOf(s[..|s| - 1], c)
  }

  /** `os.path.basename`: the longest ending of the path without a '/'. */
  function Basename(p: string): (r: string)
    ensures '/' !in r
    ensures |r| <= |p| && r == p[|p| - |r|..]
    ensures |r| < |p| ==> p[|p| - |r| - 1] == '/'
  {
    match LastIndexOf(p, '/')
    case None => p
    case Some(i) => p[i + 1..]
  }

  /** `os.path.splitext` of a base name: the extension runs from the last
      '.' when some character before that dot is not itself a dot (so that
      ".bashrc" has no extension). */
  function SplitExt(name: string): (r: (string, string))
    ensures r.0 + r.1 == name
  {
    match LastIndexOf(name, '.')
    case None => (name, "")
    case Some(i) => if exists j | 0 <= j < i :: name[j] != '.' then (name[..i], name[i..]) else (name, "")
  }

  /** A name has an extension exactly when some dot in it follows a
      character other than a dot; the extension is a dot and no other. */
  lemma SplitExtContract(name: string)
    ensures var (root, ext) := SplitExt(name);
      && (ext != "" <==> exists i, j | 0 <= j < i < |name| :: name[i] == '.' && name[j] != '.')
      && (ext != "" ==> ext[0] == '.' && '.' !in ext[1..] && root == name[..|root|])
  {
    var (root, ext) := SplitExt(name);
    match LastIndexOf(name, '.')
    case None =>
    case Some(i) =>
      if ext == "" {
        forall i', j | 0 <= j < i' < |name| && name[i'] == '.' ensures name[j] == '.' {
          assert i' <= i;
        }
      } else {
        assert ext == name[i..];
        forall k | 0 <= k < |ext[1..]| ensures ext[1..][k] != '.' {
          assert ext[1..][k] == name[i + 1 + k];
        }
      }
  }

  // ------------------------------------------------------------------
  // sanitising the hostname

  /** `[\w.-]`, reading `\w` as ASCII letters, digits and the underscore. */
  predicate IsNameChar(c: char) {
    ('a' <= c <= 'z') || ('A' <= c <= 'Z') || IsDigit(c) || c == '_' || c == '.' || c == '-'
  }

  predicate AllNameChars(s: string) {
    forall i | 0 <= i < |s| :: IsNameChar(s[i])
  }

  /** `re.sub(r'[^\w\.\-]', '_', hostname)` */
  function Sanitize(s: string): (r: string)
    ensures |r| == |s| && AllNameChars(r)
  {
    seq(|s|, i requires 0 <= i < |s| => if IsNameChar(s[i]) then s[i] else '_')
  }

  /** Sanitising keeps each character that may appear in a file name and
      replaces each other one by '_'; sanitising twice changes nothing more. */
  lemma SanitizeContract(s: string)
    ensures forall i | 0 <= i < |s| :: Sanitize(s)[i] == s[i] <==> IsNameChar(s[i])
    ensures forall i | 0 <= i < |s| :: Sanitize(s)[i] != s[i] ==> Sanitize(s)[i] == '_'
    ensures AllNameChars(s) ==> Sanitize(s) == s
    ensures Sanitize(Sanitize(s)) == Sanitize(s)
  {
  }

  // ------------------------------------------------------------------
  // stripping the old suffixes

  /** The leftmost position from `i` on from which the rest of `s` matches
      a pattern anchored at the end (`re.search(pattern + '$', s)`). */
  function LeftmostFrom(s: string, p: string -> bool, i: nat): (r: Option<nat>)
    requires i <= |s|
    ensures r.Some? ==> i <= r.value <= |s| && p(s[r.value..]) && forall j | i <= j < r.value :: !p(s[j..])
    ensures r.None? ==> forall j | i <= j <= |s| :: !p(s[j..])
    decreases |s| - i
  {
    if p(s[i..]) then Some(i)
    else if i == |s| then None
    else LeftmostFrom(s, p, i + 1)
  }

  /** `re.sub(pattern + '$', '', s)`: the leftmost match runs to the end
      of the text, so it is the only one removed. */
  function StripEnding(s: string, p: string -> bool): (r: string)
    ensures |r| <= |s| && r == s[..|r|]
  {
    match LeftmostFrom(s, p, 0)
    case None => s
    case Some(i) => s[..i]
  }

  /** `_\d+` */
  predicate SeqNumber(t: string) {
    |t| >= 2 && t[0] == '_' && AllDigits(t[1..])
  }

  /** `_\d{8}_\d{6}` */
  predicate OldTimestamp(t: string) {
    |t| == 16 && t[0] == '_' && AllDigits(t[1..9]) && t[9] == '_' && AllDigits(t[10..])
  }

  /** `_hostname_[\w\.\-]+` */
  predicate HostSuffix(t: string) {
    |t| > 10 && t[..10] == "_hostname_" && AllNameChars(t[10..])
  }

  /** `_range_\d+-\d+` */
  predicate RangeSuffix(t: string) {
    |t| >= 10 && t[..7] == "_range_"
    && exists k | 8 <= k < |t| - 1 :: t[k] == '-' && AllDigits(t[7..k]) && AllDigits(t[k + 1..])
  }

  /** The four substitutions, in the order the writers apply them. */
  function StripKnownSuffixes(base: string): string {
    StripEnding(StripEnding(StripEnding(StripEnding(base, SeqNumber), OldTimestamp), HostSuffix), RangeSuffix)
  }

  /** The clean base name of the loaded file. */
  function CleanBase(filename: string): string {
    StripKnownSuffixes(SplitExt(Basename(filename)).0)
  }

  /** The match at `i` is the leftmost one: the text is cut there. */
  lemma StripAt(s: string, p: string -> bool, i: nat)
    requires i <= |s| && p(s[i..])
    requires forall j | 0 <= j < i :: !p(s[j..])
    ensures StripEnding(s, p) == s[..i]
  {
    var r := LeftmostFrom(s, p, 0);
    assert r.Some?;
  }

  /** Without a match the text is kept. */
  lemma StripNothing(s: string, p: string -> bool)
    requires forall j | 0 <= j <= |s| :: !p(s[j..])
    ensures StripEnding(s, p) == s
  {
  }

  /** A trailing `_<digits>` is removed, and no more. */
  lemma StripSeqNumber(a: string, d: string)
    requires d != "" && AllDigits(d)
    ensures StripEnding(a + "_" + d, SeqNumber) == a
  {
    var s := a + "_" + d;
    assert s[|a|..] == "_" + d && ("_" + d)[1..] == d;
    forall j | 0 <= j < |a| ensures !SeqNumber(s[j..]) {
      var t := s[j..];
      assert t[1..][|a| - j - 1] == '_';
    }
    StripAt(s, SeqNumber, |a|);
    assert s[..|a|] == a;
  }

  /** `"%Y%m%d_%H%M%S"`: eight digits, an underscore, six digits. */
  predicate IsTimestamp(ts: string) {
    |ts| == 15 && AllDigits(ts[..8]) && ts[8] == '_' && AllDigits(ts[9..])
  }

  /** A trailing `_<timestamp>` is removed. */
  lemma StripOldTimestamp(a: string, ts: string)
    requires IsTimestamp(ts)
    ensures StripEnding(a + "_" + ts, OldTimestamp) == a
  {
    var s := a + "_" + ts;
    var t := s[|a|..];
    assert t == "_" + ts;
    assert t[1..9] == ts[..8] && t[10..] == ts[9..];
    StripAt(s, OldTimestamp, |a|);
    assert s[..|a|] == a;
  }

  /** A trailing `_<date>` alone is not a timestamp and is kept. */
  lemma KeepDate(a: string, date: string)
    requires |date| == 8 && AllDigits(date)
    ensures StripEnding(a + "_" + date, OldTimestamp) == a + "_" + date
  {
    var s := a + "_" + date;
    forall j | 0 <= j <= |s| ensures !OldTimestamp(s[j..]) {
      if |s[j..]| == 16 {
        assert s[j..][9] == date[1];
      }
    }
    StripNothing(s, OldTimestamp);
  }

  /** The hostname part is removed up to the end when no earlier hostname
      marker starts before it. */
  lemma StripHost(pre: string, san: string, x: string)
    requires san != "" && AllNameChars(san) && AllNameChars(x)
    requires forall j | 0 <= j < |pre| :: !OccursAt(pre + "_hostname_", "_hostname_", j)
    ensures StripEnding(pre + "_hostname_" + san + x, HostSuffix) == pre
  {
    var s := pre + "_hostname_" + san + x;
    var t := s[|pre|..];
    assert t == "_hostname_" + san + x;
    assert t[..10] == "_hostname_";
    assert t[10..] == san + x;
    forall j | 0 <= j < |pre| ensures !HostSuffix(s[j..]) {
      if HostSuffix(s[j..]) {
        assert s[j..][..10] == (pre + "_hostname_")[j..j + 10];
        assert OccursAt(pre + "_hostname_", "_hostname_", j);
      }
    }
    StripAt(s, HostSuffix, |pre|);
    assert s[..|pre|] == pre;
  }

  /** `"_range_<s>-<e>"` for non-negative bounds. */
  function RangeText(s: nat, e: nat): string {
    "_range_" + NatToString(s) + "-" + NatToString(e)
  }

  /** The characters of a matched range suffix past "_range_" are digits
      and dashes. */
  lemma RangeSuffixChars(t: string)
    ensures RangeSuffix(t) ==> forall i | 7 <= i < |t| :: IsDigit(t[i]) || t[i] == '-'
  {
    if RangeSuffix(t) {
      var k :| 8 <= k < |t| - 1 && t[k] == '-' && AllDigits(t[7..k]) && AllDigits(t[k + 1..]);
      forall i | 7 <= i < |t| ensures IsDigit(t[i]) || t[i] == '-' {
        if i < k {
          assert t[7..k][i - 7] == t[i];
        } else if i > k {
          assert t[k + 1..][i - k - 1] == t[i];
        }
      }
    }
  }

  /** A range suffix is removed, and nothing before it. */
  lemma StripRange(b: string, s: nat, e: nat)
    ensures StripEnding(b + RangeText(s, e), RangeSuffix) == b
  {
    var ss, es := NatToString(s), NatToString(e);
    var r := RangeText(s, e);
    var u := b + r;
    assert r[..7] == "_range_";
    var k := 7 + |ss|;
    assert r[k] == '-' && r[7..k] == ss && r[k + 1..] == es;
    assert RangeSuffix(r);
    assert u[|b|..] == r;
    forall j | 0 <= j < |b| ensures !RangeSuffix(u[j..]) {
      var t := u[j..];
      if j + 7 <= |b| + 1 {
        assert t[|b| + 1 - j] == 'r';
        RangeSuffixChars(t);
      } else {
        var i := |b| - j;
        assert t[..7][i] == u[|b|] == '_';
        assert "_range_"[i] != '_';
      }
    }
    StripAt(u, RangeSuffix, |b|);
    assert u[..|b|] == b;
  }

  /** No range suffix ends the text. */
  predicate NoRangeEnding(b: string) {
    forall j | 0 <= j <= |b| :: !RangeSuffix(b[j..])
  }

  /** No hostname suffix ends the text. */
  predicate NoHostEnding(b: string) {
    forall j | 0 <= j <= |b| :: !HostSuffix(b[j..])
  }

  // ------------------------------------------------------------------
  // composing the new name

  /** The range filter applies: the checkbox is set and both bounds are given. */
  predicate FilterApplies(filterRange: bool, start: Option<real>, end: Option<real>) {
    filterRange && start.Some? && end.Some?
  }

  /** `f"_range_{int(start_block)}-{int(end_block)}"` when the filter applies. */
  function RangePart(filterRange: bool, start: Option<real>, end: Option<real>): string {
    if FilterApplies(filterRange, start, end)
    then "_range_" + IntToString(Trunc(start.value)) + "-" + IntToString(Trunc(end.value))
    else ""
  }

  /** `f"_hostname_{sanitized}"` when the metadata has a non-empty Hostname. */
  function HostPart(metadata: Dict): string {
    match Get(metadata, "Hostname")
    case None => ""
    case Some(h) => if h == "" then "" else "_hostname_" + Sanitize(h)
  }

  /** `new_base_filename` of "Save As...". */
  function NewStem(filename: string, metadata: Dict, filterRange: bool, start: Option<real>, end: Option<real>,
                   ts: string): string
  {
    CleanBase(filename) + RangePart(filterRange, start, end) + HostPart(metadata) + "_" + ts
  }

  /** The stem with the save-as counter: none for the first candidate. */
  function Numbered(stem: string, k: nat): string {
    if k == 0 then stem else stem + "_" + NatToString(k)
  }

  /** `os.path.join(saved_dir, f"{stem}.csv")`, then `f"{stem}_{counter}.csv"`. */
  function Candidate(dir: string, stem: string, k: nat): string {
    dir + "/" + Numbered(stem, k) + ".csv"
  }

  /** The name "Save" writes: a timestamp only when the range filter applies. */
  function OverwritePath(dir: string, filename: string, metadata: Dict, filterRange: bool,
                         start: Option<real>, end: Option<real>, ts: string): string
  {
    var stamp := if FilterApplies(filterRange, start, end) then "_" + ts else "";
    dir + "/" + CleanBase(filename) + RangePart(filterRange, start, end) + HostPart(metadata) + stamp + ".csv"
  }

  lemma NumberedInjective(stem: string, j: nat, k: nat)
    ensures Numbered(stem, j) == Numbered(stem, k) ==> j == k
  {
    if Numbered(stem, j) == Numbered(stem, k) && j != 0 && k != 0 {
      var nj, nk := Numbered(stem, j), Numbered(stem, k);
      assert nj[|stem| + 1..] == NatToString(j);
      assert nk[|stem| + 1..] == NatToString(k);
      NatToStringInjective(j, k);
    }
  }

  /** Distinct counters give distinct paths. */
  lemma CandidateInjective(dir: string, stem: string, j: nat, k: nat)
    ensures Candidate(dir, stem, j) == Candidate(dir, stem, k) ==> j == k
  {
    var cj, ck := Candidate(dir, stem, j), Candidate(dir, stem, k);
    if cj == ck {
      var n := |dir| + 1;
      assert cj[n..|cj| - 4] == Numbered(stem, j);
      assert ck[n..|ck| - 4] == Numbered(stem, k);
      NumberedInjective(stem, j, k);
    }
  }

  /** The candidates tried before counter `k`. */
  function Tried(dir: string, stem: string, k: nat): (s: set<string>)
    ensures forall j | 0 <= j < k :: Candidate(dir, stem, j) in s
    ensures forall p | p in s :: exists j | 0 <= j < k :: p == Candidate(dir, stem, j)
  {
    if k == 0 then {} else Tried(dir, stem, k - 1) + {Candidate(dir, stem, k - 1)}
  }

  lemma NotYetTried(dir: string, stem: string, k: nat)
    ensures Candidate(dir, stem, k) !in Tried(dir, stem, k)
  {
    forall j | 0 <= j < k ensures Candidate(dir, stem, k) != Candidate(dir, stem, j) {
      CandidateInjective(dir, stem, j, k);
    }
  }

  /** One more existing candidate passed over: the tried set grows by one
      and stays among the existing files. */
  lemma TriedStep(dir: string, stem: string, k: nat, existing: set<string>)
    requires Tried(dir, stem, k) <= existing && |Tried(dir, stem, k)| == k
    requires Candidate(dir, stem, k) in existing
    ensures Tried(dir, stem, k + 1) <= existing && |Tried(dir, stem, k + 1)| == k + 1
    ensures k + 1 <= |existing|
  {
    NotYetTried(dir, stem, k);
    var next := Tried(dir, stem, k) + {Candidate(dir, stem, k)};
    assert Tried(dir, stem, k + 1) == next;
    SubsetCardinality(next, existing);
  }

  lemma SubsetCardinality(a: set<string>, b: set<string>)
    requires a <= b
    ensures |a| <= |b|
    decreases |a|
  {
    if a != {} {
      var x :| x in a;
      SubsetCardinality(a - {x}, b - {x});
    }
  }

  /** The counter loop of "Save As...": the first candidate that is not an
      existing file. It ends because each candidate it passes over is a
      distinct existing file. */
  method FreePath(dir: string, stem: string, existing: set<string>) returns (path: string, k: nat)
    ensures path == Candidate(dir, stem, k) && path !in existing
    ensures forall j | 0 <= j < k :: Candidate(dir, stem, j) in existing
  {
    path := Candidate(dir, stem, 0);
    var counter: nat := 1;
    k := 0;
    while path in existing
      invariant counter == k + 1
      invariant path == Candidate(dir, stem, k)
      invariant Tried(dir, stem, k) <= existing && |Tried(dir, stem, k)| == k
      decreases |existing| - k
    {
      TriedStep(dir, stem, k, existing);
      path := Candidate(dir, stem, counter);
      counter := counter + 1;
      k := k + 1;
    }
  }

  // ------------------------------------------------------------------
  // the two writers

  /** What a save produces: the two messages that end it early, the
      KeyError of a range filter over a table without heights, or the path
      chosen with the preamble and the rows written there. */
  datatype SaveOutcome =
    | NoStore                          // "No data in store to save."
    | NoContent(filename: string)      // "No data content found for '...'."
    | MissingHeight                    // df['Block_height'] raises KeyError
    | Saved(path: string, preamble: seq<string>, rows: Frame)

  /** The rows written: the inclusive height range when the filter applies. */
  function SavedRows(f: Frame, filterRange: bool, start: Option<real>, end: Option<real>): (r: Option<Frame>)
    requires Rectangular(f)
    ensures r.None? <==> FilterApplies(filterRange, start, end) && BlockHeight !in f.cols
  {
    if !FilterApplies(filterRange, start, end) then Some(f)
    else if BlockHeight !in f.cols then None
    else Some(Take(f, RowSets.RowsInRange(f.cols[BlockHeight], start, end)))
  }

  /** "Save": the store's metadata and rows under the cleaned name. */
  function SaveOverwrite(store: Option<Store>, filterRange: bool, start: Option<real>, end: Option<real>,
                         dir: string, ts: string): (r: SaveOutcome)
    requires store.Some? ==> WellFormed(store.value)
    ensures r.NoStore? <==> store.None?
    ensures r.NoContent? <==> store.Some? && store.value.data.None?
    ensures r.NoContent? ==> r.filename == store.value.filename
    ensures r.MissingHeight? <==>
      store.Some? && store.value.data.Some? && SavedRows(store.value.data.value, filterRange, start, end).None?
    ensures r.Saved? ==>
      var st := store.value;
      && r.preamble == PreambleLines(st.metadata)
      && Some(r.rows) == SavedRows(st.data.value, filterRange, start, end)
      && r.path == OverwritePath(dir, st.filename, st.metadata, filterRange, start, end, ts)
      && (!FilterApplies(filterRange, start, end) ==>
            r.path == dir + "/" + CleanBase(st.filename) + HostPart(st.metadata) + ".csv")
      && (FilterApplies(filterRange, start, end) ==> EndsWith(r.path, "_" + ts + ".csv"))
  {
    if store.None? then NoStore
    else
      var st := store.value;
      if st.data.None? then NoContent(st.filename)
      else match SavedRows(st.data.value, filterRange, start, end)
        case None => MissingHeight
        case Some(rows) =>
          if FilterApplies(filterRange, start, end) then
            OverwriteWithFilter(dir, st.filename, st.metadata, filterRange, start, end, ts);
            Saved(OverwritePath(dir, st.filename, st.metadata, filterRange, start, end, ts),
                  PreambleLines(st.metadata), rows)
          else
            OverwriteWithoutFilter(dir, st.filename, st.metadata, filterRange, start, end, ts);
            Saved(OverwritePath(dir, st.filename, st.metadata, filterRange, start, end, ts),
                PreambleLines(st.metadata), rows)
  }

  /** "Save As...": the first free candidate of the new stem. */
  method SaveAs(store: Option<Store>, filterRange: bool, start: Option<real>, end: Option<real>,
                dir: string, ts: string, existing: set<string>) returns (r: SaveOutcome)
    requires store.Some? ==> WellFormed(store.value)
    ensures r.NoStore? <==> store.None?
    ensures r.NoContent? <==> store.Some? && store.value.data.None?
    ensures r.NoContent? ==> r.filename == store.value.filename
    ensures r.MissingHeight? <==>
      store.Some? && store.value.data.Some? && SavedRows(store.value.data.value, filterRange, start, end).None?
    ensures r.Saved? ==>
      var st := store.value;
      var stem := NewStem(st.filename, st.metadata, filterRange, start, end, ts);
      && r.preamble == PreambleLines(st.metadata)
      && Some(r.rows) == SavedRows(st.data.value, filterRange, start, end)
      && r.path !in existing
      && exists k: nat :: r.path == Candidate(dir, stem, k) && forall j | 0 <= j < k :: Candidate(dir, stem, j) in existing
  {
    if store.None? {
      return NoStore;
    }
    var st := store.value;
    if st.data.None? {
      return NoContent(st.filename);
    }
    var rows := SavedRows(st.data.value, filterRange, start, end);
    if rows.None? {
      return MissingHeight;
    }
    var stem := NewStem(st.filename, st.metadata, filterRange, start, end, ts);
    var path, k := FreePath(dir, stem, existing);
    r := Saved(path, PreambleLines(st.metadata), rows.value);
  }

  /** Without the range filter "Save" writes the clean base and the
      hostname part, whatever the time: saving twice overwrites one file. */
  lemma OverwriteWithoutFilter(dir: string, filename: string, metadata: Dict, filterRange: bool,
                               start: Option<real>, end: Option<real>, ts: string)
    requires !FilterApplies(filterRange, start, end)
    ensures OverwritePath(dir, filename, metadata, filterRange, start, end, ts)
      == dir + "/" + CleanBase(filename) + HostPart(metadata) + ".csv"
  {
    var cb, rp, hp := CleanBase(filename), RangePart(filterRange, start, end), HostPart(metadata);
    assert OverwritePath(dir, filename, metadata, filterRange, start, end, ts) == dir + "/" + cb + rp + hp + "" + ".csv";
    Unstamped(dir + "/" + cb, rp, hp, "");
  }

  /** With the range filter the path "Save" writes ends with the timestamp. */
  lemma OverwriteWithFilter(dir: string, filename: string, metadata: Dict, filterRange: bool,
                            start: Option<real>, end: Option<real>, ts: string)
    requires FilterApplies(filterRange, start, end)
    ensures EndsWith(OverwritePath(dir, filename, metadata, filterRange, start, end, ts), "_" + ts + ".csv")
  {
    var cb, rp, hp := CleanBase(filename), RangePart(filterRange, start, end), HostPart(metadata);
    var pre := dir + "/" + cb + rp + hp;
    assert OverwritePath(dir, filename, metadata, filterRange, start, end, ts) == pre + ("_" + ts) + ".csv";
    StampedTail(pre, ts);
  }

  lemma Unstamped(a: string, rp: string, hp: string, stamp: string)
    requires rp == "" && stamp == ""
    ensures a + rp + hp + stamp + ".csv" == a + hp + ".csv"
  {
    assert a + rp == a;
    assert a + hp + stamp == a + hp;
  }

  predicate EndsWith(s: string, t: string) {
    |t| <= |s| && s[|s| - |t|..] == t
  }

  lemma StampedTail(pre: string, ts: string)
    ensures EndsWith(pre + ("_" + ts) + ".csv", "_" + ts + ".csv")
  {
    var p := pre + ("_" + ts) + ".csv";
    assert p[|pre|..] == "_" + ts + ".csv";
  }

  // ------------------------------------------------------------------
  // saving a saved file again

  /** The base name of a path ending in `/file`. */
  lemma BasenameOf(dir: string, file: string)
    requires '/' !in file
    ensures Basename(dir + "/" + file) == file
  {
    var p := dir + "/" + file;
    assert p[|dir|] == '/';
    forall j | |dir| < j < |p| ensures p[j] != '/' {
      assert p[j] == file[j - |dir| - 1];
    }
    assert LastIndexOf(p, '/') == Some(|dir|);
    assert p[|dir| + 1..] == file;
  }

  /** A name with a character other than a dot splits off ".csv". */
  lemma SplitCsv(n: string)
    requires exists j | 0 <= j < |n| :: n[j] != '.'
    ensures SplitExt(n + ".csv") == (n, ".csv")
  {
    var file := n + ".csv";
    assert file[|n|] == '.';
    assert file[|n| + 1..] == "csv";
    forall j | |n| < j < |file| ensures file[j] != '.' {
      assert file[j] == "csv"[j - |n| - 1];
    }
    assert LastIndexOf(file, '.') == Some(|n|);
    var j :| 0 <= j < |n| && n[j] != '.';
    assert file[j] != '.';
    assert file[..|n|] == n && file[|n|..] == ".csv";
  }

  lemma DigitsHaveNoSlash(s: string)
    requires AllDigits(s)
    ensures '/' !in s
  {
    forall i | 0 <= i < |s| ensures s[i] != '/' {
      assert IsDigit(s[i]);
    }
  }

  /** A counter adds no '/' to a stem. */
  lemma NumberedHasNoSlash(stem: string, k: nat)
    requires '/' !in stem
    ensures '/' !in Numbered(stem, k)
  {
    if k != 0 {
      DigitsHaveNoSlash(NatToString(k));
    }
  }

  /** A stem without a '/' and with a character other than a dot: its
      candidate paths split back into the numbered stem and ".csv". */
  lemma CandidateBase(dir: string, stem: string, k: nat)
    requires '/' !in stem && exists j | 0 <= j < |stem| :: stem[j] != '.'
    ensures SplitExt(Basename(Candidate(dir, stem, k))).0 == Numbered(stem, k)
  {
    var n := Numbered(stem, k);
    NumberedHasNoSlash(stem, k);
    assert '/' !in n + ".csv";
    assert Candidate(dir, stem, k) == dir + "/" + (n + ".csv");
    BasenameOf(dir, n + ".csv");
    var j :| 0 <= j < |stem| && stem[j] != '.';
    assert n[j] == stem[j];
    SplitCsv(n);
  }

  /** The range part of a new name for non-negative bounds, if any. */
  function RangeOf(range: Option<(nat, nat)>): string {
    match range
    case None => ""
    case Some((s, e)) => RangeText(s, e)
  }

  /** The characters of a range text: "_range_", then digits and a dash,
      starting with a digit. */
  predicate RangeShaped(r: string) {
    |r| >= 8 && r[..7] == "_range_" && IsDigit(r[7])
    && forall i | 7 <= i < |r| :: IsDigit(r[i]) || r[i] == '-'
  }

  /** The shape of a range text: the part after "_range_" is digits and a
      dash, and starts with a digit. */
  lemma RangeTextShape(s: nat, e: nat)
    ensures RangeSuffix(RangeText(s, e)) && RangeShaped(RangeText(s, e))
  {
    var ss, es := NatToString(s), NatToString(e);
    var r := RangeText(s, e);
    var k := 7 + |ss|;
    assert r[k] == '-' && r[7..k] == ss && r[k + 1..] == es;
    assert r[7] == ss[0];
    RangeSuffixChars(r);
  }

  /** The hostname marker does not start inside the base when the base
      followed by an underscore does not hold it. */
  lemma MarkerNotInBase(b: string, r: string, j: nat)
    requires !Contains(b + "_", "_hostname_")
    requires j < |b| && (r == "" || r[0] == '_')
    ensures !OccursAt(b + r + "_hostname_", "_hostname_", j)
  {
    var u := b + r + "_hostname_";
    var m := "_hostname_";
    assert u[|b|] == '_' by {
      if r != "" {
        assert u[|b|] == r[0];
      } else {
        assert u[|b|] == m[0];
      }
    }
    if j + 10 <= |u| {
      var w := u[j..j + 10];
      if j + 10 <= |b| + 1 {
        assert !OccursAt(b + "_", m, j);
        assert (b + "_")[j..j + 10] == w;
      } else {
        var i := |b| - j;
        assert w[i] == '_';
        assert m[i] != '_';
      }
    }
  }

  /** The hostname marker does not start inside a range part. */
  lemma MarkerNotInRange(b: string, r: string, o: nat)
    requires RangeShaped(r) && o < |r|
    ensures !OccursAt(b + r + "_hostname_", "_hostname_", |b| + o)
  {
    var u := b + r + "_hostname_";
    var j := |b| + o;
    if j + 10 <= |u| {
      var w := u[j..j + 10];
      assert w[0] == r[o] && w[1] == u[j + 1];
      if o == 0 {
        assert u[j + 1] == r[1] == "_range_"[1];
      } else if o < 6 {
        assert r[o] == "_range_"[o];
      } else if o == 6 {
        assert u[j + 1] == r[7];
      }
    }
  }

  /** The hostname marker never starts inside the clean base or the range
      part of a new name, under a condition on the base alone. */
  lemma NoEarlierMarker(b: string, range: Option<(nat, nat)>)
    requires !Contains(b + "_", "_hostname_")
    ensures var r := RangeOf(range);
      forall j | 0 <= j < |b + r| :: !OccursAt(b + r + "_hostname_", "_hostname_", j)
  {
    var r := RangeOf(range);
    if range.Some? {
      RangeTextShape(range.value.0, range.value.1);
    }
    forall j | 0 <= j < |b + r| ensures !OccursAt(b + r + "_hostname_", "_hostname_", j) {
      if j < |b| {
        MarkerNotInBase(b, r, j);
      } else {
        MarkerNotInRange(b, r, j - |b|);
      }
    }
  }

  /** The sequence-number and timestamp substitutions on a numbered stem
      `h_<timestamp>`: with a counter they remove the counter and the
      timestamp; without one the time part alone matches `_\d+` and the
      date stays. */
  lemma StripTail(h: string, ts: string, k: nat)
    requires IsTimestamp(ts)
    ensures StripEnding(StripEnding(Numbered(h + "_" + ts, k), SeqNumber), OldTimestamp)
      == if k != 0 then h else h + "_" + ts[..8]
  {
    var stem := h + "_" + ts;
    if k != 0 {
      StripSeqNumber(stem, NatToString(k));
      StripOldTimestamp(h, ts);
    } else {
      var date := ts[..8];
      assert ts == date + "_" + ts[9..];
      assert stem == (h + "_" + date) + "_" + ts[9..];
      StripSeqNumber(h + "_" + date, ts[9..]);
      KeepDate(h, date);
    }
  }

  /** Saving a file saved with a hostname gives back the clean base it was
      saved under: the time part that the sequence-number substitution leaves
      behind is swallowed by the hostname substitution. The base must not
      hold the hostname marker, and, without a range part, must not end like
      one. */
  lemma ResaveWithHostname(b: string, range: Option<(nat, nat)>, host: string, ts: string, k: nat)
    requires IsTimestamp(ts) && host != ""
    requires !Contains(b + "_", "_hostname_")
    requires range.None? ==> NoRangeEnding(b)
    ensures StripKnownSuffixes(Numbered(b + RangeOf(range) + "_hostname_" + Sanitize(host) + "_" + ts, k)) == b
  {
    var san := Sanitize(host);
    var h := b + RangeOf(range) + "_hostname_" + san;
    var x := if k != 0 then "" else "_" + ts[..8];
    var t := Numbered(h + "_" + ts, k);
    var t2 := StripEnding(StripEnding(t, SeqNumber), OldTimestamp);
    StripTail(h, ts, k);
    assert t2 == h + x;
    if k == 0 {
      DateNameChars(ts);
    }
    StripHostAndRange(b, range, san, x);
    StripSteps(t, t2, b + RangeOf(range), b);
  }

  lemma DateNameChars(ts: string)
    requires IsTimestamp(ts)
    ensures AllNameChars("_" + ts[..8])
  {
    var x := "_" + ts[..8];
    forall i | 0 <= i < |x| ensures IsNameChar(x[i]) {
      if i > 0 {
        assert x[i] == ts[..8][i - 1];
      }
    }
  }

  /** The hostname substitution and then the range substitution on
      `<base><range>_hostname_<host><rest>` give back the base. */
  lemma StripHostAndRange(b: string, range: Option<(nat, nat)>, san: string, x: string)
    requires san != "" && AllNameChars(san) && AllNameChars(x)
    requires !Contains(b + "_", "_hostname_")
    requires range.None? ==> NoRangeEnding(b)
    ensures StripEnding(b + RangeOf(range) + "_hostname_" + san + x, HostSuffix) == b + RangeOf(range)
    ensures StripEnding(b + RangeOf(range), RangeSuffix) == b
  {
    NoEarlierMarker(b, range);
    StripHost(b + RangeOf(range), san, x);
    if range.None? {
      assert b + RangeOf(range) == b;
      StripNothing(b, RangeSuffix);
    } else {
      StripRange(b, range.value.0, range.value.1);
    }
  }

  lemma StripSteps(t: string, t2: string, t3: string, t4: string)
    requires StripEnding(StripEnding(t, SeqNumber), OldTimestamp) == t2
    requires StripEnding(t2, HostSuffix) == t3 && StripEnding(t3, RangeSuffix) == t4
    ensures StripKnownSuffixes(t) == t4
  {
  }

  /** `'/' !in` survives cutting a text to a prefix. */
  lemma PrefixHasNoSlash(a: string, s: string)
    requires |a| <= |s| && a == s[..|a|] && '/' !in s
    ensures '/' !in a
  {
    forall i | 0 <= i < |a| ensures a[i] != '/' {
      assert a[i] == s[i];
    }
  }

  lemma CleanBaseHasNoSlash(filename: string)
    ensures '/' !in CleanBase(filename)
  {
    var n := Basename(filename);
    var root := SplitExt(n).0;
    assert root == n[..|root|];
    PrefixHasNoSlash(root, n);
    var s1 := StripEnding(root, SeqNumber);
    PrefixHasNoSlash(s1, root);
    var s2 := StripEnding(s1, OldTimestamp);
    PrefixHasNoSlash(s2, s1);
    var s3 := StripEnding(s2, HostSuffix);
    PrefixHasNoSlash(s3, s2);
    PrefixHasNoSlash(StripEnding(s3, RangeSuffix), s3);
  }

  /** A file written by "Save As..." with a hostname in its metadata cleans
      back to the clean base of the file it was saved from, whatever the
      counter and the timestamp: saving it again starts from the same base.
      The conditions are on the original base name: it holds no hostname
      marker, and, without a range filter, it does not end like a range;
      range bounds are not negative. */
  lemma ResaveKeepsCleanBase(dir: string, filename: string, metadata: Dict, filterRange: bool,
                             start: Option<real>, end: Option<real>, ts: string, k: nat)
    requires IsTimestamp(ts)
    requires Get(metadata, "Hostname").Some? && Get(metadata, "Hostname").value != ""
    requires !Contains(CleanBase(filename) + "_", "_hostname_")
    requires !FilterApplies(filterRange, start, end) ==> NoRangeEnding(CleanBase(filename))
    requires FilterApplies(filterRange, start, end) ==> Trunc(start.value) >= 0 && Trunc(end.value) >= 0
    ensures CleanBase(Candidate(dir, NewStem(filename, metadata, filterRange, start, end, ts), k)) == CleanBase(filename)
  {
    var b := CleanBase(filename);
    var host := Get(metadata, "Hostname").value;
    var range := RangeBounds(filterRange, start, end);
    var rp, hp := RangePart(filterRange, start, end), HostPart(metadata);
    RangePartOfBounds(filterRange, start, end);
    assert hp == "_hostname_" + Sanitize(host);
    var stem := NewStem(filename, metadata, filterRange, start, end, ts);
    assert stem == b + rp + hp + "_" + ts;
    Regroup(b, rp, RangeOf(range), hp, Sanitize(host), ts);
    CleanBaseHasNoSlash(filename);
    StemHasNoSlash(b, range, Sanitize(host), ts);
    CandidateBase(dir, stem, k);
    ResaveWithHostname(b, range, host, ts, k);
  }

  /** The range bounds as natural numbers, when the filter applies. */
  function RangeBounds(filterRange: bool, start: Option<real>, end: Option<real>): Option<(nat, nat)>
    requires FilterApplies(filterRange, start, end) ==> Trunc(start.value) >= 0 && Trunc(end.value) >= 0
  {
    if FilterApplies(filterRange, start, end) then Some((Trunc(start.value), Trunc(end.value))) else None
  }

  /** For bounds that truncate to non-negative values the range part is
      the range text of the truncated bounds. */
  lemma RangePartOfBounds(filterRange: bool, start: Option<real>, end: Option<real>)
    requires FilterApplies(filterRange, start, end) ==> Trunc(start.value) >= 0 && Trunc(end.value) >= 0
    ensures RangePart(filterRange, start, end) == RangeOf(RangeBounds(filterRange, start, end))
  {
  }

  lemma Regroup(b: string, rp: string, r: string, hp: string, san: string, ts: string)
    requires rp == r && hp == "_hostname_" + san
    ensures b + rp + hp + "_" + ts == b + r + "_hostname_" + san + "_" + ts
  {
  }

  /** A new stem holds no '/' when its base holds none, and it holds a
      character other than a dot. */
  lemma StemHasNoSlash(b: string, range: Option<(nat, nat)>, san: string, ts: string)
    requires '/' !in b && AllNameChars(san) && IsTimestamp(ts)
    ensures var stem := b + RangeOf(range) + "_hostname_" + san + "_" + ts;
      '/' !in stem && exists j | 0 <= j < |stem| :: stem[j] != '.'
  {
    var stem := b + RangeOf(range) + "_hostname_" + san + "_" + ts;
    if range.Some? {
      RangeTextShape(range.value.0, range.value.1);
      var r := RangeOf(range);
      forall i | 0 <= i < |r| ensures r[i] != '/' {
        if i < 7 {
          assert r[i] == r[..7][i];
        }
      }
    }
    DigitsHaveNoSlash(ts[..8]);
    DigitsHaveNoSlash(ts[9..]);
    assert ts == ts[..8] + "_" + ts[9..];
    assert forall i | 0 <= i < |san| :: IsNameChar(san[i]);
    assert '/' !in san;
    assert stem[|stem| - 16] == '_';
  }

  /** Without a hostname the time part of a first-saved name is stripped
      but its date stays: each further save appends another timestamp. */
  lemma ResaveWithoutHostname(b: string, ts: string)
    requires IsTimestamp(ts)
    requires NoHostEnding(b + "_" + ts[..8]) && NoRangeEnding(b + "_" + ts[..8])
    ensures StripKnownSuffixes(b + "_" + ts) == b + "_" + ts[..8]
  {
    StripTail(b, ts, 0);
    StripNothing(b + "_" + ts[..8], HostSuffix);
    StripNothing(b + "_" + ts[..8], RangeSuffix);
  }

  /** A saved "run_20240101_120000.csv" cleans to "run_20240101", where
      the timestamp substitution alone would have given "run". */
  lemma ResavedNameKeepsDate()
    ensures StripKnownSuffixes("run_20240101_120000") == "run_20240101"
    ensures StripEnding("run_20240101_120000", OldTimestamp) == "run"
  {
    var ts := "20240101_120000";
    SampleTimestamp();
    SampleDateEndings();
    assert "run" + "_" + ts[..8] == "run_20240101";
    assert "run" + "_" + ts == "run_20240101_120000";
    ResaveWithoutHostname("run", ts);
    StripOldTimestamp("run", ts);
  }

  lemma SampleTimestamp()
    ensures IsTimestamp("20240101_120000")
  {
    var ts := "20240101_120000";
    assert ts[..8] == "20240101" && ts[9..] == "120000";
  }

  lemma SampleDateEndings()
    ensures NoHostEnding("run_20240101") && NoRangeEnding("run_20240101")
  {
    var s := "run_20240101";
    forall j | 0 <= j <= |s| ensures !HostSuffix(s[j..]) && !RangeSuffix(s[j..]) {
      if j <= 2 {
        assert s[j..][0] == s[j];
      }
    }
  }
}
