/**
 pkg/writer.go: FlashbackWriter turns a stream of writes into a file that holds
 them in reverse order, keeping only one bounded chunk in memory. Chunks are
 spilled, reversed, to numbered part files; Close concatenates the parts last
 to first. Files are byte sequences and I/O always succeeds.
 */
module FlashbackFiles {
  import opened Bytes
  import opened Digits
  import opened Lists

  /** fmt.Sprintf("%s.%04d.sql", filePrefix, partId). */
  function PartName(filePrefix: string, partId: nat): (name: string) {
    filePrefix + "." + FormatPadded(4, partId) + ".sql"
  }

  lemma PartNamesDiffer(filePrefix: string, i: nat, j: nat)
    ensures PartName(filePrefix, i) == PartName(filePrefix, j) <==> i == j
  {
    var a, b := PartName(filePrefix, i), PartName(filePrefix, j);
    if a == b {
      var k := |filePrefix| + 1;
      assert a[k..|a| - 4] == FormatPadded(4, i) && b[k..|b| - 4] == FormatPadded(4, j);
      FormatPaddedValue(4, i);
      FormatPaddedValue(4, j);
    }
  }

  /** Up to 9999 parts the number has four digits, so names sort as the parts do. */
  lemma PartNameIs(filePrefix: string, partId: nat)
    requires partId < 1_0000
    ensures var name, k := PartName(filePrefix, partId), |filePrefix|;
      && |name| == k + 9 && name[..k] == filePrefix && name[k] == '.' && name[k + 5..] == ".sql"
      && AllDigits(name[k + 1..k + 5]) && ValueOf(name[k + 1..k + 5]) == partId
  {
    var d := FormatPadded(4, partId);
    FormatPaddedValue(4, partId);
    assert Pow10(4) == 1_0000;
    FormatNatLength(partId, 4);
    var name, k := PartName(filePrefix, partId), |filePrefix|;
    assert name[k + 1..k + 5] == d;
  }

  lemma {:induction false} FormatNatLength(n: nat, k: nat)
    requires k > 0 && n < Pow10(k)
    ensures |FormatNat(n)| <= k
    decreases k
  {
    if n >= 10 { FormatNatLength(n / 10, k - 1); }
  }

  function PartNames(filePrefix: string): (name: nat -> string) {
    (partId: nat) => PartName(filePrefix, partId)
  }

  lemma PartNamesAreInjective(filePrefix: string)
    ensures Injective(PartNames(filePrefix))
  {
    forall i: nat, j: nat | PartNames(filePrefix)(i) == PartNames(filePrefix)(j) ensures i == j {
      PartNamesDiffer(filePrefix, i, j);
    }
  }

  ghost predicate Injective(name: nat -> string) {
    forall i: nat, j: nat :: name(i) == name(j) ==> i == j
  }

  ghost predicate Distinct(names: seq<string>) {
    forall i, j :: 0 <= i < j < |names| ==> names[i] != names[j]
  }

  ghost predicate AllIn(names: seq<string>, files: map<string, bytes>) {
    forall i :: 0 <= i < |names| ==> names[i] in files
  }

  /** Names 0, 1, 2, ... of one writer, in order. */
  ghost predicate Numbered(names: seq<string>, name: nat -> string) {
    names == [] ||
    (names[|names| - 1] == name(|names| - 1) && Numbered(names[..|names| - 1], name))
  }

  lemma {:induction false} NewNameIsFresh(names: seq<string>, name: nat -> string, k: nat)
    requires Injective(name) && Numbered(names, name) && |names| <= k
    ensures name(k) !in names
  {
    if names != [] {
      NewNameIsFresh(names[..|names| - 1], name, k);
      assert name(|names| - 1) != name(k);
    }
  }

  lemma {:induction false} NumberedAreDistinct(names: seq<string>, name: nat -> string)
    requires Injective(name) && Numbered(names, name)
    ensures Distinct(names)
  {
    if names != [] {
      NumberedAreDistinct(names[..|names| - 1], name);
      NewNameIsFresh(names[..|names| - 1], name, |names| - 1);
    }
  }

  /** The contents of the named files, last name first. */
  ghost function Parts(files: map<string, bytes>, names: seq<string>): (r: bytes)
    requires AllIn(names, files)
  {
    if names == [] then [] else files[names[|names| - 1]] + Parts(files, names[..|names| - 1])
  }

  lemma {:induction false} PartsFrame(f: map<string, bytes>, g: map<string, bytes>, names: seq<string>)
    requires AllIn(names, f) && AllIn(names, g)
    requires forall i :: 0 <= i < |names| ==> f[names[i]] == g[names[i]]
    ensures Parts(f, names) == Parts(g, names)
  {
    if names != [] { PartsFrame(f, g, names[..|names| - 1]); }
  }

  /** The writes of a list, last one first. */
  ghost function Backwards(ws: seq<bytes>): (r: bytes) {
    if ws == [] then [] else ws[|ws| - 1] + Backwards(ws[..|ws| - 1])
  }

  lemma {:induction false} BackwardsIsReversed(ws: seq<bytes>)
    ensures Backwards(ws) == Flatten(Reversed(ws))
  {
    if ws != [] {
      var k := |ws| - 1;
      BackwardsIsReversed(ws[..k]);
      ReversedEnds(ws[..k], ws[k]);
      assert ws == ws[..k] + [ws[k]];
      assert Reversed(ws)[1..] == Reversed(ws[..k]);
    }
  }

  lemma {:induction false} BackwardsPrepend(w: bytes, ws: seq<bytes>)
    ensures Backwards([w] + ws) == Backwards(ws) + w
  {
    if ws != [] {
      var k := |ws| - 1;
      BackwardsPrepend(w, ws[..k]);
      assert ([w] + ws)[..k + 1] == [w] + ws[..k];
    }
  }

  lemma BackwardsAppend(ws: seq<bytes>, w: bytes)
    ensures Backwards(ws + [w]) == w + Backwards(ws)
  {
    assert (ws + [w])[..|ws|] == ws;
  }

  /**
   The writer's invariant: spilled parts, last first, after the cached writes, last first, are
   all writes, last first.
   */
  ghost predicate Consistent(name: nat -> string, names: seq<string>, current: string, files: map<string, bytes>,
                             cache: seq<bytes>, written: seq<bytes>)
  {
    && names != [] && Numbered(names, name)
    && AllIn(names, files)
    && current == names[|names| - 1] && files[current] == []
    && Backwards(written) == Backwards(cache) + Parts(files, names[..|names| - 1])
  }

  lemma WriteKeeps(name: nat -> string, names: seq<string>, current: string, files: map<string, bytes>,
                   cache: seq<bytes>, written: seq<bytes>, p: bytes)
    requires Consistent(name, names, current, files, cache, written)
    ensures Consistent(name, names, current, files, cache + [p], written + [p])
  {
    BackwardsAppend(written, p);
    BackwardsAppend(cache, p);
    ConcatAssoc(p, Backwards(cache), Parts(files, names[..|names| - 1]));
  }

  lemma SpilledParts(names: seq<string>, files: map<string, bytes>, content: bytes)
    requires names != [] && Distinct(names) && AllIn(names, files)
    ensures var f := files[names[|names| - 1] := content];
            AllIn(names, f) && Parts(f, names) == content + Parts(files, names[..|names| - 1])
  {
    PartsFrame(files[names[|names| - 1] := content], files, names[..|names| - 1]);
  }

  lemma SpillKeeps(name: nat -> string, names: seq<string>, current: string, files: map<string, bytes>,
                   cache: seq<bytes>, written: seq<bytes>)
    requires Injective(name) && Consistent(name, names, current, files, cache, written)
    ensures var next := name(|names|);
            Consistent(name, names + [next], next, files[current := Backwards(cache)][next := []], [], written)
  {
    var next := name(|names|);
    var f := files[current := Backwards(cache)];
    NewNameIsFresh(names, name, |names|);
    NumberedAreDistinct(names, name);
    SpilledParts(names, files, Backwards(cache));
    PartsFrame(f[next := []], f, names);
    assert (names + [next])[..|names|] == names;
  }

  function Names(names: seq<string>): (r: set<string>) { set name | name in names }

  /** Copying and removing part i - 1 leaves the same bytes to come. */
  lemma MergeStep(f: map<string, bytes>, names: seq<string>, i: nat, m: bytes)
    requires 0 < i <= |names| && Distinct(names) && AllIn(names[..i], f)
    ensures names[i - 1] in f && AllIn(names[..i - 1], f - {names[i - 1]})
    ensures m + f[names[i - 1]] + Parts(f - {names[i - 1]}, names[..i - 1]) == m + Parts(f, names[..i])
  {
    var name, rest := names[i - 1], names[..i - 1];
    assert names[..i][i - 1] == name && names[..i][..i - 1] == rest;
    PartsFrame(f - {name}, f, rest);
    ConcatAssoc(m, f[name], Parts(f, rest));
  }

  lemma RemovedStep(files: map<string, bytes>, names: seq<string>, i: nat)
    requires 0 < i <= |names|
    ensures files - Names(names[i..]) - {names[i - 1]} == files - Names(names[i - 1..])
  {
    TailStep(names, i - 1);
    assert Names([names[i - 1]] + names[i..]) == {names[i - 1]} + Names(names[i..]);
  }

  class FlashbackWriter {
    const partName: nat -> string       // the numbered names that start with filePrefix
    const maxCacheSize: int
    const merging: bool                 // mergedWriter != nil
    var cacheHeader: bytes
    var cacheFooter: bytes
    var cache: seq<bytes>
    var currentWritten: nat
    var currentFileName: string
    var currentFilePartId: nat
    var filePartNames: seq<string>
    var files: map<string, bytes>       // the directory the part files live in
    var merged: bytes                   // what mergedWriter has received
    var closed: bool
    ghost var written: seq<bytes>       // every Write so far, in order

    ghost predicate Valid()
      reads this
    {
      && |filePartNames| == currentFilePartId + 1 && Injective(partName)
      && Consistent(partName, filePartNames, currentFileName, files, cache, written)
    }

    /** NewFlashbackWriter. */
    constructor (filePrefix: string, cacheSize: int, merging: bool, directory: map<string, bytes>)
      ensures Valid() && !closed && written == [] && merged == []
      ensures partName == PartNames(filePrefix) && maxCacheSize == cacheSize && this.merging == merging
      ensures cacheHeader == [] && cacheFooter == []
      ensures files == directory[PartName(filePrefix, 0) := []]
    {
      partName, maxCacheSize, this.merging := PartNames(filePrefix), cacheSize, merging;
      cacheHeader, cacheFooter, cache, merged := [], [], [], [];
      currentWritten, currentFilePartId := 0, 0;
      currentFileName := PartName(filePrefix, 0);
      filePartNames := [PartName(filePrefix, 0)];
      files := directory[PartName(filePrefix, 0) := []];
      closed, written := false, [];
      PartNamesAreInjective(filePrefix);
    }

    method SetHeader(s: bytes)
      modifies this`cacheHeader
      ensures cacheHeader == s
    {
      cacheHeader := s;
    }

    method SetFooter(s: bytes)
      modifies this`cacheFooter
      ensures cacheFooter == s
    {
      cacheFooter := s;
    }

    /** The reverse-index loop shared by Write and Close: the cache goes to the current part, last entry first. */
    method WriteCacheReversed()
      requires currentFileName in files && files[currentFileName] == []
      modifies this`files
      ensures files == old(files)[currentFileName := Backwards(cache)]
    {
      var i := |cache|;
      assert cache[i..] == [];
      while i > 0
        invariant 0 <= i <= |cache|
        invariant files == old(files)[currentFileName := Backwards(cache[i..])]
      {
        BackwardsPrepend(cache[i - 1], cache[i..]);
        assert cache[i - 1..] == [cache[i - 1]] + cache[i..];
        files := files[currentFileName := files[currentFileName] + cache[i - 1]];
        i := i - 1;
      }
      assert cache[0..] == cache;
    }

    /** Write: the new entry joins the cache, which is spilled to a part once it reaches the size limit. */
    method Write(p: bytes) returns (n: nat)
      requires Valid() && !closed
      modifies this
      ensures Valid() && !closed
      ensures n == |p| && written == old(written) + [p]
      ensures merged == old(merged) && cacheHeader == old(cacheHeader) && cacheFooter == old(cacheFooter)
      ensures if old(currentWritten) + |p| >= maxCacheSize
              then cache == [] && currentWritten == 0 && filePartNames == old(filePartNames) + [currentFileName]
              else cache == old(cache) + [p] && currentWritten == old(currentWritten) + |p| && files == old(files)
    {
      WriteKeeps(partName, filePartNames, currentFileName, files, cache, written, p);
      cache := cache + [p];
      currentWritten := currentWritten + |p|;
      written := written + [p];
      if currentWritten >= maxCacheSize {
        currentWritten := 0;
        Spill();
      }
      n := |p|;
    }

    /** The cache-full branch of Write. */
    method Spill()
      requires Valid()
      modifies this`cache, this`currentFilePartId, this`currentFileName, this`filePartNames, this`files
      ensures Valid() && cache == [] && filePartNames == old(filePartNames) + [currentFileName]
    {
      SpillKeeps(partName, filePartNames, currentFileName, files, cache, written);
      WriteCacheReversed();
      Next();
    }

    /** next: forget the spilled cache and start an empty part. */
    method Next()
      requires |filePartNames| == currentFilePartId + 1
      modifies this`cache, this`currentFilePartId, this`currentFileName, this`filePartNames, this`files
      ensures cache == [] && currentFilePartId == old(currentFilePartId) + 1
      ensures currentFileName == partName(currentFilePartId)
      ensures filePartNames == old(filePartNames) + [currentFileName]
      ensures files == old(files)[currentFileName := []]
    {
      cache := [];
      currentFilePartId := currentFilePartId + 1;
      currentFileName := partName(currentFilePartId);
      filePartNames := filePartNames + [currentFileName];
      files := files[currentFileName := []];
    }

    /** Close: the merged output is the header, every write in reverse order, and the footer; the parts are gone. */
    method Close()
      requires Valid() && !closed
      modifies this
      ensures closed && written == old(written) && filePartNames == old(filePartNames)
      ensures merging ==> merged == old(merged + cacheHeader) + Flatten(Reversed(written)) + old(cacheFooter)
      ensures merging ==> files == old(files) - Names(filePartNames)
      ensures !merging ==> merged == old(merged)
      ensures !merging ==> AllIn(filePartNames, files) && Parts(files, filePartNames) == Flatten(Reversed(written))
    {
      BackwardsIsReversed(written);
      NumberedAreDistinct(filePartNames, partName);
      SpilledParts(filePartNames, files, Backwards(cache));
      WriteCacheReversed();
      cache, closed := [], true;
      if merging {
        merged := merged + cacheHeader;
        MergeParts();
        merged := merged + cacheFooter;
      }
    }

    /** The merge loop of Close: parts are copied and removed from the last to the first. */
    method MergeParts()
      requires Distinct(filePartNames) && AllIn(filePartNames, files)
      modifies this`merged, this`files
      ensures merged == old(merged) + Parts(old(files), filePartNames)
      ensures files == old(files) - Names(filePartNames)
    {
      var i := |filePartNames|;
      assert filePartNames[..i] == filePartNames;
      while i > 0
        invariant 0 <= i <= |filePartNames|
        invariant AllIn(filePartNames[..i], files)
        invariant files == old(files) - Names(filePartNames[i..])
        invariant merged + Parts(files, filePartNames[..i]) == old(merged) + Parts(old(files), filePartNames)
      {
        ghost var f, m := files, merged;
        var srcFileName := filePartNames[i - 1];
        merged := merged + files[srcFileName];
        files := files - {srcFileName};
        MergeStep(f, filePartNames, i, m);
        RemovedStep(old(files), filePartNames, i);
        i := i - 1;
      }
      assert filePartNames[0..] == filePartNames;
    }
  }
}
