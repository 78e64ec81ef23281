/** ios/Web4BlobCache.swift: blobs as files of one directory, evicted oldest first down to a byte bound. */
module Web4BlobCache {
  import opened Bytes

  type FileName = string
  type Cid = string

  datatype File = File(data: bytes, modified: int)

  type Directory = map<FileName, File>

  // ---- Listings of a directory ----

  ghost predicate Listing(files: Directory, names: seq<FileName>) {
    && (forall i, j :: 0 <= i < j < |names| ==> names[i] != names[j])
    && (forall f :: f in files <==> f in names)
  }

  /** A listing in the order `sorted` puts it in: by modification time, ties in any order. */
  ghost predicate OldestFirst(files: Directory, names: seq<FileName>) {
    Listing(files, names) && Ordered(files, names)
  }

  ghost predicate Ordered(files: Directory, names: seq<FileName>) {
    && (forall i :: 0 <= i < |names| ==> names[i] in files)
    && forall i, j :: 0 <= i < j < |names| ==> files[names[i]].modified <= files[names[j]].modified
  }

  function TotalSize(files: Directory, names: seq<FileName>): nat
    requires forall i :: 0 <= i < |names| ==> names[i] in files
  {
    if names == [] then 0 else TotalSize(files, names[..|names| - 1]) + |files[names[|names| - 1]].data|
  }

  lemma {:induction false} TotalOfSplit(files: Directory, a: seq<FileName>, b: seq<FileName>)
    requires forall f :: f in a + b ==> f in files
    ensures (forall i :: 0 <= i < |a| ==> a[i] in files) && (forall i :: 0 <= i < |b| ==> b[i] in files)
    ensures TotalSize(files, a + b) == TotalSize(files, a) + TotalSize(files, b)
  {
    forall i | 0 <= i < |a| ensures a[i] in files { assert (a + b)[i] == a[i]; }
    forall i | 0 <= i < |b| ensures b[i] in files { assert (a + b)[|a| + i] == b[i]; }
    if b == [] {
      assert a + b == a;
    } else {
      assert (a + b)[..|a + b| - 1] == a + b[..|b| - 1];
      TotalOfSplit(files, a, b[..|b| - 1]);
    }
  }

  /** `contentsOfDirectory`: every file once, in no particular order. */
  method ListDirectory(files: Directory) returns (listing: seq<FileName>)
    ensures Listing(files, listing)
  {
    listing := [];
    var left := files.Keys;
    while left != {}
      invariant left <= files.Keys
      invariant forall i, j :: 0 <= i < j < |listing| ==> listing[i] != listing[j]
      invariant forall f :: f in files <==> f in listing || f in left
      invariant forall i :: 0 <= i < |listing| ==> listing[i] !in left
      decreases |left|
    {
      var f :| f in left;
      left := left - {f};
      listing := listing + [f];
    }
  }

  function Only(files: Directory, names: seq<FileName>): Directory {
    map f | f in files && f in names :: files[f]
  }

  /** The library's sort, by modification time; it moves files, so the total size stays. */
  method SortOldestFirst(files: Directory, listing: seq<FileName>) returns (sorted: seq<FileName>)
    requires Listing(files, listing)
    ensures OldestFirst(files, sorted) && TotalSize(files, sorted) == TotalSize(files, listing)
  {
    sorted := [];
    for i := 0 to |listing|
      invariant Listing(Only(files, listing[..i]), sorted) && Ordered(files, sorted)
      invariant TotalSize(files, sorted) == TotalSize(files, listing[..i])
    {
      PrefixGrows(files, listing, i);
      sorted := InsertByTime(files, listing[..i], listing[i], sorted);
    }
    assert listing[..|listing|] == listing;
    assert Only(files, listing) == files;
  }

  lemma PrefixGrows(files: Directory, listing: seq<FileName>, i: nat)
    requires Listing(files, listing) && i < |listing|
    ensures listing[i] in files && listing[i] !in listing[..i] && listing[..i + 1] == listing[..i] + [listing[i]]
    ensures TotalSize(files, listing[..i + 1]) == TotalSize(files, listing[..i]) + |files[listing[i]].data|
  {
    assert listing[..i + 1][..i] == listing[..i];
  }

  method InsertByTime(files: Directory, ghost before: seq<FileName>, f: FileName, rest: seq<FileName>)
    returns (sorted: seq<FileName>)
    requires f in files && f !in before && Listing(Only(files, before), rest) && Ordered(files, rest)
    ensures Listing(Only(files, before + [f]), sorted) && Ordered(files, sorted)
    ensures TotalSize(files, sorted) == TotalSize(files, rest) + |files[f].data|
  {
    var k := Position(files, rest, f);
    Inserted(files, before, f, rest, k);
    sorted := rest[..k] + ([f] + rest[k..]);
  }

  method Position(files: Directory, sorted: seq<FileName>, f: FileName) returns (k: nat)
    requires f in files && forall i :: 0 <= i < |sorted| ==> sorted[i] in files
    ensures k <= |sorted|
    ensures forall i :: 0 <= i < k ==> files[sorted[i]].modified <= files[f].modified
    ensures k < |sorted| ==> files[f].modified < files[sorted[k]].modified
  {
    k := 0;
    while k < |sorted| && files[sorted[k]].modified <= files[f].modified
      invariant k <= |sorted|
      invariant forall i :: 0 <= i < k ==> files[sorted[i]].modified <= files[f].modified
    {
      k := k + 1;
    }
  }

  lemma Inserted(files: Directory, before: seq<FileName>, f: FileName, rest: seq<FileName>, k: nat)
    requires f in files && f !in before && Listing(Only(files, before), rest) && Ordered(files, rest) && k <= |rest|
    requires forall i :: 0 <= i < k ==> files[rest[i]].modified <= files[f].modified
    requires k < |rest| ==> files[f].modified < files[rest[k]].modified
    ensures Listing(Only(files, before + [f]), rest[..k] + ([f] + rest[k..]))
    ensures Ordered(files, rest[..k] + ([f] + rest[k..]))
    ensures TotalSize(files, rest[..k] + ([f] + rest[k..])) == TotalSize(files, rest) + |files[f].data|
  {
    assert rest == rest[..k] + rest[k..];
    InsertedOrder(files, f, rest, k);
    InsertedSize(files, rest[..k], f, rest[k..]);
    InsertedMembers(files, before, f, rest[..k], rest[k..]);
  }

  lemma InsertedOrder(files: Directory, f: FileName, rest: seq<FileName>, k: nat)
    requires f in files && Ordered(files, rest) && k <= |rest|
    requires forall i :: 0 <= i < k ==> files[rest[i]].modified <= files[f].modified
    requires k < |rest| ==> files[f].modified < files[rest[k]].modified
    ensures Ordered(files, rest[..k] + ([f] + rest[k..]))
  {
    var names := rest[..k] + ([f] + rest[k..]);
    assert forall i :: 0 <= i < |names| ==> names[i] == if i < k then rest[i] else if i == k then f else rest[i - 1];
  }

  lemma InsertedSize(files: Directory, front: seq<FileName>, f: FileName, back: seq<FileName>)
    requires f in files && forall g :: g in front + back ==> g in files
    ensures forall g :: g in front + ([f] + back) ==> g in files
    ensures TotalSize(files, front + ([f] + back)) == TotalSize(files, front + back) + |files[f].data|
  {
    assert forall g :: g in front ==> g in front + back;
    assert forall g :: g in back ==> g in front + back;
    TotalOfSplit(files, front, back);
    TotalOfSplit(files, [f], back);
    TotalOfSplit(files, front, [f] + back);
    assert [f][..0] == [];
  }

  lemma InsertedMembers(files: Directory, before: seq<FileName>, f: FileName, front: seq<FileName>, back: seq<FileName>)
    requires f in files && f !in before && Listing(Only(files, before), front + back)
    ensures Listing(Only(files, before + [f]), front + ([f] + back))
  {
    var old', new' := front + back, front + ([f] + back);
    assert f !in old';
    forall g ensures g in Only(files, before + [f]) <==> g in new' {
      assert g in old' <==> g in front || g in back;
    }
    forall i, j | 0 <= i < j < |new'| ensures new'[i] != new'[j] {
      var i' := if i < |front| then i else i - 1;
      var j' := if j < |front| then j else j - 1;
      if i != |front| && j != |front| {
        assert old'[i'] == new'[i] && old'[j'] == new'[j];
      } else if i == |front| {
        assert new'[j] == old'[j'] && old'[j'] in old';
      } else {
        assert new'[i] == old'[i'] && old'[i'] in old';
      }
    }
  }

  // ---- Eviction ----

  /** Removing the first `n` of the listing brings the rest within the bound, and `n` is the least number
    that does: with one file fewer removed the bound is still exceeded. */
  ghost predicate MinimalPrefix(files: Directory, names: seq<FileName>, n: nat, maxBytes: int) {
    && Listing(files, names) && n <= |names|
    && (n < |names| ==> TotalSize(files, names[n..]) <= maxBytes)
    && (n > 0 ==> TotalSize(files, names[n - 1..]) > maxBytes)
  }

  /** What `enforceLimit` removes: such a prefix of the oldest-first order. Where nothing has to go the
    files are not even sorted. */
  ghost predicate Evicted(files: Directory, names: seq<FileName>, n: nat, maxBytes: int) {
    MinimalPrefix(files, names, n, maxBytes) && (n > 0 ==> OldestFirst(files, names))
  }

  function Without(files: Directory, names: seq<FileName>): Directory {
    files - (set f | f in names)
  }

  method Total(files: Directory, listing: seq<FileName>) returns (total: nat)
    requires Listing(files, listing)
    ensures total == TotalSize(files, listing)
  {
    total := 0;
    for i := 0 to |listing|
      invariant total == TotalSize(files, listing[..i])
    {
      assert listing[..i + 1][..i] == listing[..i];
      total := total + |files[listing[i]].data|;
    }
    assert listing[..|listing|] == listing;
  }

  class BlobCache {
    const maxBytes: int
    const fileName: Cid -> FileName
    var files: Directory

    constructor (maxBytes: int, fileName: Cid -> FileName, files: Directory)
      ensures this.maxBytes == maxBytes && this.fileName == fileName && this.files == files
    {
      this.maxBytes, this.fileName, this.files := maxBytes, fileName, files;
    }

    /** Removals succeed. */
    method EnforceLimit() returns (ghost names: seq<FileName>, ghost n: nat)
      modifies this`files
      ensures Evicted(old(files), names, n, maxBytes)
      ensures files == Without(old(files), names[..n])
    {
      var listing := ListDirectory(files);
      var total := Total(files, listing);
      if total <= maxBytes {
        assert listing[0..] == listing && listing[..0] == [];
        assert files == Without(files, []);
        return listing, 0;
      }
      var sorted := SortOldestFirst(files, listing);
      n := RemoveOldest(sorted, total);
      names := sorted;
    }

    method RemoveOldest(sorted: seq<FileName>, total: nat) returns (k: nat)
      requires OldestFirst(files, sorted) && total == TotalSize(files, sorted)
      modifies this`files
      ensures MinimalPrefix(old(files), sorted, k, maxBytes) && files == Without(old(files), sorted[..k])
    {
      ghost var start := files;
      var remaining: int := total;
      k := 0;
      NothingRemoved(start, sorted);
      while k < |sorted| && remaining > maxBytes
        invariant k <= |sorted| && files == Without(start, sorted[..k]) && remaining == TotalSize(start, sorted[k..])
        invariant k > 0 ==> TotalSize(start, sorted[k - 1..]) > maxBytes
      {
        RemoveOne(start, sorted, k);
        var size := |files[sorted[k]].data|;
        files := files - {sorted[k]};
        remaining := remaining - size;
        k := k + 1;
      }
    }

    /** A hit counts as a use. */
    method Get(cid: Cid, now: int) returns (r: Option<FileName>)
      modifies this`files
      ensures r == if fileName(cid) in old(files) then Some(fileName(cid)) else None
      ensures files == if r.Some? then old(files)[fileName(cid) := old(files)[fileName(cid)].(modified := now)] else old(files)
    {
      var file := fileName(cid);
      if file !in files { return None; }
      files := files[file := files[file].(modified := now)];
      r := Some(file);
    }

    /** The new blob is written before the limit is enforced; its name comes back even where it does not
      survive that. Where the write fails nothing changes. */
    method Put(cid: Cid, data: bytes, now: int, writeOk: bool) returns (r: Option<FileName>, ghost names: seq<FileName>, ghost n: nat)
      modifies this`files
      ensures !writeOk ==> r == None && files == old(files)
      ensures var written := old(files)[fileName(cid) := File(data, now)];
              writeOk ==> r == Some(fileName(cid)) && Evicted(written, names, n, maxBytes)
                          && files == Without(written, names[..n])
    {
      if !writeOk {
        return None, [], 0;
      }
      var url := fileName(cid);
      files := files[url := File(data, now)];
      names, n := EnforceLimit();
      r := Some(url);
    }
  }

  lemma NothingRemoved(files: Directory, names: seq<FileName>)
    requires Listing(files, names)
    ensures names[0..] == names && Without(files, names[..0]) == files
  {
  }

  lemma RemoveOne(files: Directory, names: seq<FileName>, k: nat)
    requires Listing(files, names) && k < |names|
    ensures names[k] in Without(files, names[..k]) && Without(files, names[..k])[names[k]] == files[names[k]]
    ensures Without(files, names[..k]) - {names[k]} == Without(files, names[..k + 1])
    ensures TotalSize(files, names[k..]) == |files[names[k]].data| + TotalSize(files, names[k + 1..])
  {
    assert names[k] !in names[..k];
    assert names[k..] == [names[k]] + names[k + 1..];
    forall f | f in [names[k]] + names[k + 1..] ensures f in files { assert f in names; }
    TotalOfSplit(files, [names[k]], names[k + 1..]);
    assert [names[k]][..0] == [];
    assert forall f :: f in names[..k + 1] <==> f in names[..k] || f == names[k];
  }

  // ---- What eviction means ----

  lemma {:induction false} TotalShrinks(files: Directory, names: seq<FileName>, i: nat, j: nat)
    requires Listing(files, names) && i <= j <= |names|
    ensures TotalSize(files, names[j..]) <= TotalSize(files, names[i..])
    decreases j - i
  {
    if i < j {
      RemoveOne(files, names, i);
      TotalShrinks(files, names, i + 1, j);
    }
  }

  /** How many files go is determined by the order: there is one minimal prefix. */
  lemma MinimalPrefixUnique(files: Directory, names: seq<FileName>, m: nat, n: nat, maxBytes: int)
    requires MinimalPrefix(files, names, m, maxBytes) && MinimalPrefix(files, names, n, maxBytes)
    ensures m == n
  {
    if m < n {
      TotalShrinks(files, names, m, n - 1);
    } else if n < m {
      TotalShrinks(files, names, n, m - 1);
    }
  }

  lemma ListingOfRest(files: Directory, names: seq<FileName>, n: nat)
    requires Listing(files, names) && n <= |names|
    ensures Listing(Without(files, names[..n]), names[n..])
    ensures TotalSize(Without(files, names[..n]), names[n..]) == TotalSize(files, names[n..])
  {
    var rest := Without(files, names[..n]);
    forall f ensures f in rest <==> f in names[n..] {
      if f in names[n..] {
        var k :| n <= k < |names| && names[k] == f;
        assert f !in names[..n];
      }
      if f in rest {
        assert f in names;
        var k :| 0 <= k < |names| && names[k] == f;
        assert k >= n;
        assert names[n..][k - n] == f;
      }
    }
    SameSizes(files, rest, names[n..]);
  }

  lemma {:induction false} SameSizes(a: Directory, b: Directory, names: seq<FileName>)
    requires forall i :: 0 <= i < |names| ==> names[i] in a && names[i] in b && a[names[i]] == b[names[i]]
    ensures TotalSize(a, names) == TotalSize(b, names)
  {
    if names != [] {
      SameSizes(a, b, names[..|names| - 1]);
    }
  }

  /** After eviction the directory is within the bound, or empty where no file fits. */
  lemma WithinBound(files: Directory, names: seq<FileName>, n: nat, maxBytes: int)
    requires MinimalPrefix(files, names, n, maxBytes)
    ensures Listing(Without(files, names[..n]), names[n..])
    ensures TotalSize(Without(files, names[..n]), names[n..]) <= maxBytes || Without(files, names[..n]) == map[]
  {
    ListingOfRest(files, names, n);
    if n == |names| {
      assert names[n..] == [];
    }
  }

  /** Nothing that stays was used before anything that goes. */
  lemma {:induction false} OldestGo(files: Directory, names: seq<FileName>, n: nat, gone: FileName, kept: FileName)
    requires Listing(files, names) && n <= |names| && (n > 0 ==> OldestFirst(files, names))
    requires gone in files && gone !in Without(files, names[..n]) && kept in Without(files, names[..n])
    ensures files[gone].modified <= files[kept].modified
  {
    ListingOfRest(files, names, n);
    assert gone in names[..n] && kept in names[n..];
    var i :| 0 <= i < n && names[i] == gone;
    var j :| 0 <= j < |names[n..]| && names[n..][j] == kept;
    assert names[n + j] == kept;
  }

  lemma SizeWithinTotal(files: Directory, names: seq<FileName>, k: nat)
    requires Listing(files, names) && k < |names|
    ensures |files[names[k]].data| <= TotalSize(files, names)
  {
    assert names[0..] == names;
    TotalShrinks(files, names, 0, k);
    RemoveOne(files, names, k);
  }

  /** A strictly newest file survives eviction if and only if it fits the bound by itself. */
  lemma NewestSurvivesExactly(files: Directory, names: seq<FileName>, n: nat, maxBytes: int, f: FileName)
    requires Evicted(files, names, n, maxBytes) && f in files
    requires forall g :: g in files && g != f ==> files[g].modified < files[f].modified
    ensures f in Without(files, names[..n]) <==> |files[f].data| <= maxBytes
  {
    assert f in names;
    var k :| 0 <= k < |names| && names[k] == f;
    if n == 0 {
      SizeWithinTotal(files, names, k);
      assert names[0..] == names && names[..0] == [];
    } else {
      NewestIsLast(files, names, k);
      LastSurvivesExactly(files, names, n, maxBytes);
    }
  }

  lemma NewestIsLast(files: Directory, names: seq<FileName>, k: nat)
    requires OldestFirst(files, names) && k < |names|
    requires forall g :: g in files && g != names[k] ==> files[g].modified < files[names[k]].modified
    ensures k == |names| - 1
  {
    assert names[|names| - 1] in names;
  }

  lemma LastSurvivesExactly(files: Directory, names: seq<FileName>, n: nat, maxBytes: int)
    requires MinimalPrefix(files, names, n, maxBytes) && n > 0
    ensures names[|names| - 1] in files
    ensures names[|names| - 1] in Without(files, names[..n]) <==> |files[names[|names| - 1]].data| <= maxBytes
  {
    var last := |names| - 1;
    assert names[last] in names;
    RemoveOne(files, names, last);
    assert names[last + 1..] == [];
    if n <= last {
      TotalShrinks(files, names, n, last);
      assert names[last] !in names[..n];
    } else {
      assert names[..n] == names;
    }
  }
}
