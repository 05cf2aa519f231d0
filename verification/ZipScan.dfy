/** `check_zip_bomb`: entries are inflated one after the other, each read cut off so that the total never
    goes far past the limit. */
module ZipScan {
  const LIMIT: nat := 200 * 1024 * 1024
  const MAX_ENTRIES: nat := 1000
  const MAX_RATIO: nat := 100

  /** An entry of an archive: what it would inflate to if read to the end. */
  datatype Entry = Unreadable | Entry(name: string, isFile: bool, size: nat)

  datatype Result = Ok | TooManyEntries | PathTraversal | TooLarge | RatioTooHigh | BadEntry

  predicate HasDots(s: string) {
    exists i :: 0 <= i < |s| - 1 && s[i] == '.' && s[i + 1] == '.'
  }

  predicate CleanName(name: string) {
    !HasDots(name) && !(name != "" && (name[0] == '/' || name[0] == '\\'))
  }

  /** What reading every file to its end would inflate. */
  function Inflated(entries: seq<Entry>): nat {
    if entries == [] then 0
    else
      var last := entries[|entries| - 1];
      Inflated(entries[..|entries| - 1]) + (if last.Entry? && last.isFile then last.size else 0)
  }

  lemma {:induction false} InflatedGrows(entries: seq<Entry>, n: nat)
    requires n <= |entries|
    ensures Inflated(entries[..n]) <= Inflated(entries)
  {
    if n < |entries| {
      InflatedGrows(entries[..|entries| - 1], n);
      assert entries[..|entries| - 1][..n] == entries[..n];
    } else {
      assert entries[..n] == entries;
    }
  }

  lemma InflatedSnoc(entries: seq<Entry>, e: Entry)
    ensures Inflated([]) == 0
    ensures Inflated(entries + [e]) == Inflated(entries) + if e.Entry? && e.isFile then e.size else 0
  {
    assert (entries + [e])[..|entries|] == entries;
  }

  /** The scan gets past the first `n` entries: at most a thousand, none unreadable or badly named, of at most 200 MiB in
      all. */
  ghost predicate IsPassed(entries: seq<Entry>, n: nat) {
    && n <= |entries| && n <= 1000 && Inflated(entries[..n]) <= 200 * 1024 * 1024
    && forall i :: 0 <= i < n ==> entries[i].Entry? && CleanName(entries[i].name)
  }

  lemma CleanNameIff(name: string)
    ensures CleanName(name) <==>
      && (forall i :: 0 <= i < |name| - 1 ==> !(name[i] == '.' && name[i + 1] == '.'))
      && !("/" <= name) && !("\\" <= name)
  {
  }

  lemma NothingPassed(entries: seq<Entry>)
    ensures IsPassed(entries, 0) && Inflated(entries[..0]) == 0
  {
  }

  lemma InflatedNext(entries: seq<Entry>, n: nat)
    requires n < |entries|
    ensures Inflated(entries[..n + 1])
         == Inflated(entries[..n]) + if entries[n].Entry? && entries[n].isFile then entries[n].size else 0
  {
    assert entries[..n + 1] == entries[..n] + [entries[n]];
    InflatedSnoc(entries[..n], entries[n]);
  }

  lemma PassedNext(entries: seq<Entry>, n: nat)
    requires IsPassed(entries, n) && n < |entries| && n < 1000 && entries[n].Entry? && CleanName(entries[n].name)
    requires Inflated(entries[..n + 1]) <= 200 * 1024 * 1024
    ensures IsPassed(entries, n + 1)
  {
    hide CleanName, Inflated;
  }

  lemma PassedAll(entries: seq<Entry>)
    requires IsPassed(entries, |entries|)
    ensures |entries| <= 1000 && Inflated(entries) <= 200 * 1024 * 1024 && forall e <- entries :: e.Entry? && CleanName(e.name)
  {
    hide CleanName, Inflated;
    assert entries[..|entries|] == entries;
  }

  /** An archive with an entry that cannot be passed is not acceptable. */
  lemma NotPassed(entries: seq<Entry>, n: nat)
    requires n < |entries|
    requires n >= 1000 || entries[n].Unreadable? || !CleanName(entries[n].name) || Inflated(entries[..n + 1]) > 200 * 1024 * 1024
    ensures !(|entries| <= 1000 && (forall e <- entries :: e.Entry? && CleanName(e.name)) && Inflated(entries) <= 200 * 1024 * 1024)
  {
    hide CleanName, Inflated;
    InflatedGrows(entries, n + 1);
    assert entries[n] in entries;
  }

  /** Scanning with cut-off reads accepts exactly the archives an unlimited scan would: of at most a thousand entries, with
      clean names, that inflate to at most 200 MiB and at most a hundred times their size. It inflates at most one byte
      more than 200 MiB, whatever the archive, and refuses any other for what is wrong with the first entry it
      cannot pass, or with the ratio. */
  method CheckZipBomb(entries: seq<Entry>, compressedSize: nat) returns (r: Result, read: nat, ghost at: nat)
    ensures r == Ok <==>
      && |entries| <= 1000 && (forall e <- entries :: e.Entry? && CleanName(e.name))
      && Inflated(entries) <= 200 * 1024 * 1024 && (compressedSize > 0 ==> Inflated(entries) <= 100 * compressedSize)
    ensures read <= 200 * 1024 * 1024 + 1
    ensures IsPassed(entries, at)
    ensures r == Ok || r == RatioTooHigh <==> at == |entries|
    ensures r == RatioTooHigh ==> compressedSize > 0 && Inflated(entries) > 100 * compressedSize
    ensures r == BadEntry ==> entries[at].Unreadable?
    ensures r == TooManyEntries ==> entries[at].Entry? && at == 1000
    ensures r == PathTraversal ==> at < 1000 && entries[at].Entry? && !CleanName(entries[at].name)
    ensures r == TooLarge ==> at < 1000 && entries[at].Entry? && CleanName(entries[at].name)
    ensures r == TooLarge ==> Inflated(entries[..at + 1]) > 200 * 1024 * 1024 && read == 200 * 1024 * 1024 + 1
    ensures r != TooLarge ==> read == Inflated(entries[..at])
  {
    var total: nat := 0;
    var totalEntries: nat := 0;
    at := 0;
    NothingPassed(entries);
    hide IsPassed, Inflated, HasDots;
    for i := 0 to |entries|
      invariant totalEntries == at == i <= MAX_ENTRIES && IsPassed(entries, i)
      invariant total == Inflated(entries[..i]) <= LIMIT
    {
      var entry := entries[i];
      InflatedNext(entries, i);
      if entry.Unreadable? {
        NotPassed(entries, i);
        return BadEntry, total, at;
      }
      totalEntries := totalEntries + 1;
      if totalEntries > MAX_ENTRIES {
        NotPassed(entries, i);
        return TooManyEntries, total, at;
      }
      if HasDots(entry.name) || (entry.name != "" && (entry.name[0] == '/' || entry.name[0] == '\\')) {
        NotPassed(entries, i);
        return PathTraversal, total, at;
      }
      if entry.isFile {
        var remaining := if total <= LIMIT + 1 then LIMIT + 1 - total else 0;
        var written := if entry.size <= remaining then entry.size else remaining;
        total := total + written;
        if total > LIMIT {
          NotPassed(entries, i);
          return TooLarge, total, at;
        }
      }
      PassedNext(entries, i);
      at := at + 1;
    }
    PassedAll(entries);
    assert entries[..|entries|] == entries;
    if compressedSize > 0 && total > MAX_RATIO * compressedSize {
      return RatioTooHigh, total, at;
    }
    return Ok, total, at;
  }
}
