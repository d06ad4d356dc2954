/**
 * Backup rotation of the document store. Before a document file is
 * overwritten it is copied into the backup directory as
 * `<prefix><timestamp>.json`; the directory listing is then filtered to this
 * store's names, sorted, reversed, and everything after the first ten is
 * unlinked. Both stores (`apps-` and `dashboards-`) share one directory and
 * this logic, with the prefix as the only difference.
 */
module Backups {
  import opened Common

  const Keep := 10
  const Suffix := ".json"

  /** `new Date().toISOString().replace(/[:.]/g, '-')`, on a given ISO string. */
  function Stamp(iso: string): (r: string)
    ensures |r| == |iso|
    ensures forall i | 0 <= i < |r| :: r[i] != ':' && r[i] != '.'
    ensures forall i | 0 <= i < |r| && iso[i] != ':' && iso[i] != '.' :: r[i] == iso[i]
  {
    seq(|iso|, i requires 0 <= i < |iso| => if iso[i] == ':' || iso[i] == '.' then '-' else iso[i])
  }

  /** The file name the copy is stored under. */
  function BackupName(prefix: string, iso: string): (name: string)
    ensures IsBackup(prefix, name)
  {
    var name := prefix + Stamp(iso) + Suffix;
    assert name[..|prefix|] == prefix;
    assert name[|name| - |Suffix|..] == Suffix;
    name
  }

  /** `f.startsWith(prefix) && f.endsWith('.json')`. */
  predicate IsBackup(prefix: string, name: string) {
    StartsWith(name, prefix) && EndsWith(name, Suffix)
  }

  predicate SortedAsc(xs: seq<string>) {
    forall i, j | 0 <= i < j < |xs| :: LexLeq(xs[i], xs[j])
  }

  predicate SortedDesc(xs: seq<string>) {
    forall i, j | 0 <= i < j < |xs| :: LexLeq(xs[j], xs[i])
  }

  function InsertAsc(x: string, xs: seq<string>): (r: seq<string>)
    requires SortedAsc(xs)
    ensures SortedAsc(r) && multiset(r) == multiset(xs) + multiset{x}
  {
    if xs == [] then [x]
    else if LexLeq(x, xs[0]) then
      InsertAtHead(x, xs);
      [x] + xs
    else
      var rest := InsertAsc(x, xs[1..]);
      InsertBehindHead(x, xs, rest);
      [xs[0]] + rest
  }

  /** A name no greater than the head of an ascending list goes in front of it. */
  lemma InsertAtHead(x: string, xs: seq<string>)
    requires SortedAsc(xs) && xs != [] && LexLeq(x, xs[0])
    ensures SortedAsc([x] + xs)
  {
    forall j | 0 < j < |xs| ensures LexLeq(x, xs[j]) {
      LexLeqTransitive(x, xs[0], xs[j]);
    }
  }

  /** A name greater than the head goes into the tail, behind the head. */
  lemma InsertBehindHead(x: string, xs: seq<string>, rest: seq<string>)
    requires SortedAsc(xs) && xs != [] && !LexLeq(x, xs[0])
    requires SortedAsc(rest) && multiset(rest) == multiset(xs[1..]) + multiset{x}
    ensures SortedAsc([xs[0]] + rest) && multiset([xs[0]] + rest) == multiset(xs) + multiset{x}
  {
    LexLeqTotal(x, xs[0]);
    assert xs == [xs[0]] + xs[1..];
    forall j | 0 <= j < |rest| ensures LexLeq(xs[0], rest[j]) {
      assert rest[j] in multiset(rest);
      assert rest[j] == x || rest[j] in xs[1..];
    }
  }

  /** `.sort()` on strings: ascending code-unit order, a permutation of the input. */
  function SortAsc(xs: seq<string>): (r: seq<string>)
    ensures SortedAsc(r) && multiset(r) == multiset(xs) && |r| == |xs|
  {
    if xs == [] then []
    else
      assert xs == [xs[0]] + xs[1..];
      InsertAsc(xs[0], SortAsc(xs[1..]))
  }

  /** `.reverse()`. */
  function Reverse(xs: seq<string>): (r: seq<string>)
    ensures |r| == |xs| && multiset(r) == multiset(xs)
    ensures forall i | 0 <= i < |xs| :: r[i] == xs[|xs| - 1 - i]
  {
    if xs == [] then []
    else
      assert xs == [xs[0]] + xs[1..];
      Reverse(xs[1..]) + [xs[0]]
  }

  /** The matching names, newest (greatest) first. */
  function Newest(prefix: string, listing: seq<string>): (r: seq<string>)
    ensures SortedDesc(r)
    ensures multiset(r) == multiset(Filter(listing, (n: string) => IsBackup(prefix, n)))
  {
    var asc := SortAsc(Filter(listing, (n: string) => IsBackup(prefix, n)));
    ReverseDescends(asc);
    Reverse(asc)
  }

  /** Reversing an ascending list gives a descending one. */
  lemma ReverseDescends(xs: seq<string>)
    requires SortedAsc(xs)
    ensures SortedDesc(Reverse(xs))
  {
    var r := Reverse(xs);
    forall i, j | 0 <= i < j < |r| ensures LexLeq(r[j], r[i]) {
      assert r[i] == xs[|xs| - 1 - i] && r[j] == xs[|xs| - 1 - j];
    }
  }

  /** `sortedBackups.slice(10)`: the names that are unlinked, the rest of the newest-first list. */
  function Pruned(prefix: string, listing: seq<string>): (r: seq<string>)
    ensures Kept(prefix, listing) + r == Newest(prefix, listing)
  {
    var newest := Newest(prefix, listing);
    if |newest| <= Keep then [] else newest[Keep..]
  }

  /** The matching names that survive: the first ten of the newest-first list, or all of it. */
  function Kept(prefix: string, listing: seq<string>): (r: seq<string>)
    ensures |r| == KeptCount(|Newest(prefix, listing)|) && r == Newest(prefix, listing)[..|r|]
  {
    var newest := Newest(prefix, listing);
    if |newest| <= Keep then newest else newest[..Keep]
  }

  /** The newest-first list holds exactly the matching names, each once when the listing does. */
  lemma NewestMembers(prefix: string, listing: seq<string>)
    requires Distinct(listing)
    ensures Distinct(Newest(prefix, listing))
    ensures |Newest(prefix, listing)| == |Filter(listing, (n: string) => IsBackup(prefix, n))|
    ensures forall n :: n in Newest(prefix, listing) <==> n in listing && IsBackup(prefix, n)
  {
    PermutedFilter(listing, (n: string) => IsBackup(prefix, n), Newest(prefix, listing));
  }

  /** Cutting a strictly descending list leaves every later name below every earlier one. */
  lemma CutDescending(xs: seq<string>, k: nat)
    requires SortedDesc(xs) && Distinct(xs) && k <= |xs|
    ensures forall p, q | p in xs[k..] && q in xs[..k] :: LexLeq(p, q) && p != q
  {
    forall p, q | p in xs[k..] && q in xs[..k] ensures LexLeq(p, q) && p != q {
      var i :| k <= i < |xs| && xs[i] == p;
      var j :| 0 <= j < k && xs[j] == q;
    }
  }

  /** `Keep`, or fewer when there are fewer matching names. */
  function KeptCount(matching: int): int {
    if matching <= Keep then matching else Keep
  }

  /**
   * Over a listing without duplicates: only matching names are unlinked; the
   * matching names split into the ten newest (all of them when there are at
   * most ten, and then nothing is pruned) and the rest; and every pruned
   * name is strictly smaller than every kept one.
   */
  lemma {:induction false} PruneSelection(prefix: string, listing: seq<string>)
    requires Distinct(listing)
    ensures forall n | n in Pruned(prefix, listing) :: n in listing && IsBackup(prefix, n)
    ensures |Kept(prefix, listing)| <= Keep
    ensures |Kept(prefix, listing)| == KeptCount(|Filter(listing, (n: string) => IsBackup(prefix, n))|)
    ensures |Filter(listing, (n: string) => IsBackup(prefix, n))| <= Keep ==> Pruned(prefix, listing) == []
    ensures Distinct(Kept(prefix, listing))
    ensures forall n | n in Kept(prefix, listing) :: n in listing && IsBackup(prefix, n)
    ensures |Kept(prefix, listing)| + |Pruned(prefix, listing)| == |Filter(listing, (n: string) => IsBackup(prefix, n))|
    ensures forall n | n in listing && IsBackup(prefix, n) ::
      (n in Kept(prefix, listing) <==> n !in Pruned(prefix, listing))
    ensures forall p, k | p in Pruned(prefix, listing) && k in Kept(prefix, listing) :: LexLeq(p, k) && p != k
  {
    var newest := Newest(prefix, listing);
    var cut := if |newest| <= Keep then |newest| else Keep;
    assert Kept(prefix, listing) == newest[..cut];
    assert Pruned(prefix, listing) == newest[cut..];
    assert newest == newest[..cut] + newest[cut..];
    NewestMembers(prefix, listing);
    CutDescending(newest, cut);
  }

  /**
   * The directory after a backup: the stamped copy is present, then the
   * pruned names are gone. Nothing but the copy is new.
   */
  function AfterBackup(names: seq<string>, prefix: string, iso: string): (r: seq<string>)
    ensures |r| <= |names| + 1
    ensures forall n | n in r :: n in names || n == BackupName(prefix, iso)
  {
    var listing := if BackupName(prefix, iso) in names then names else names + [BackupName(prefix, iso)];
    Filter(listing, (n: string) => n !in Pruned(prefix, listing))
  }

  /** A document file: absent, not JSON, or parsed (whether or not it passes its schema). */
  datatype DocFile<T> = Missing | Unparsable | Parsed(data: T)

  /** The directory after `createBackup`: untouched when there is no file, else backed up under `prefix`. */
  function BackedUp<T>(f: DocFile<T>, names: seq<string>, prefix: string, now: string): seq<string> {
    if f.Missing? then names else AfterBackup(names, prefix, now)
  }

  /** The backup directory listing, shared by both stores. */
  class BackupDir {
    var names: seq<string>

    constructor (initial: seq<string>)
      ensures names == initial
    {
      names := initial;
    }

    /**
     * `createBackup` once the document file exists: copy it in under the
     * stamped name (a copy onto an existing name replaces that file), then
     * unlink every name after the first ten, one at a time.
     */
    method Backup(prefix: string, iso: string)
      modifies this
      ensures names == AfterBackup(old(names), prefix, iso)
      ensures Distinct(old(names)) ==> Distinct(names)
    {
      var name := BackupName(prefix, iso);
      if name !in names {
        names := names + [name];
      }
      ghost var listing := names;
      var doomed := Pruned(prefix, names);
      FilterAllKept(listing, (n: string) => n !in doomed[..0]);
      for i := 0 to |doomed|
        invariant names == Filter(listing, (n: string) => n !in doomed[..i])
      {
        UnlinkStep(listing, doomed, i);
        names := Filter(names, (n: string) => n != doomed[i]);
      }
      assert doomed[..|doomed|] == doomed;
      if Distinct(old(names)) {
        AfterBackupDistinct(old(names), prefix, iso);
      }
    }
  }

  /** A backup into a duplicate-free directory leaves it duplicate-free. */
  lemma AfterBackupDistinct(names: seq<string>, prefix: string, iso: string)
    requires Distinct(names)
    ensures Distinct(AfterBackup(names, prefix, iso))
  {
    var name := BackupName(prefix, iso);
    var listing := if name in names then names else names + [name];
    ListingDistinct(names, name);
    FilterDistinct(listing, (n: string) => n !in Pruned(prefix, listing));
  }

  /** Unlinking one more doomed name extends the set of names filtered out by one. */
  lemma UnlinkStep(listing: seq<string>, doomed: seq<string>, i: nat)
    requires i < |doomed|
    ensures Filter(Filter(listing, (n: string) => n !in doomed[..i]), (n: string) => n != doomed[i])
         == Filter(listing, (n: string) => n !in doomed[..i + 1])
  {
    assert doomed[..i + 1] == doomed[..i] + [doomed[i]];
    FilterFilter(listing, (n: string) => n !in doomed[..i], (n: string) => n != doomed[i],
                 (n: string) => n !in doomed[..i + 1]);
  }

  /**
   * After the unlink loop over a duplicate-free listing, exactly the ten
   * newest of this store's backups remain (all of them when there are at
   * most ten), names of other stores are untouched, and every removed backup
   * is older than every remaining one.
   */
  lemma {:induction false} AtMostTenRemain(prefix: string, listing: seq<string>)
    requires Distinct(listing)
    ensures var after := Filter(listing, (n: string) => n !in Pruned(prefix, listing));
      && |Filter(after, (n: string) => IsBackup(prefix, n))| <= Keep
      && |Filter(after, (n: string) => IsBackup(prefix, n))|
         == KeptCount(|Filter(listing, (n: string) => IsBackup(prefix, n))|)
      && (forall n | n in listing && !IsBackup(prefix, n) :: n in after)
      && (forall p, k | p in listing && p !in after && k in after && IsBackup(prefix, k) :: LexLeq(p, k) && p != k)
  {
    var doomed := Pruned(prefix, listing);
    var kept := Kept(prefix, listing);
    var notDoomed := (n: string) => n !in doomed;
    var isBackup := (n: string) => IsBackup(prefix, n);
    var both := (n: string) => n !in doomed && IsBackup(prefix, n);
    var remaining := Filter(Filter(listing, notDoomed), isBackup);
    PruneSelection(prefix, listing);
    FilterFilter(listing, notDoomed, isBackup, both);
    FilterDistinct(listing, both);
    DistinctWithin(remaining, kept);
    forall n | n in kept ensures n in remaining {
      assert n in listing && both(n);
    }
    DistinctWithin(kept, remaining);
  }

  /**
   * One backup into a duplicate-free directory: afterwards exactly the ten
   * newest of this store's backups remain (all of them, the copy included,
   * while there are at most ten), they are the greatest names among the old
   * listing plus the new copy, and the other store's files are untouched.
   */
  lemma BackupRotation(names: seq<string>, prefix: string, iso: string)
    requires Distinct(names)
    ensures var after := AfterBackup(names, prefix, iso);
      && Distinct(after)
      && |Filter(after, (n: string) => IsBackup(prefix, n))| <= Keep
      && |Filter(after, (n: string) => IsBackup(prefix, n))|
         == KeptCount(|Filter(names, (n: string) => IsBackup(prefix, n))|
                      + (if BackupName(prefix, iso) in names then 0 else 1))
      && (forall n | n in names && !IsBackup(prefix, n) :: n in after)
      && (forall n | n in after :: n in names || n == BackupName(prefix, iso))
      && (forall p, k | (p in names || p == BackupName(prefix, iso)) && p !in after
                        && k in after && IsBackup(prefix, k) :: LexLeq(p, k) && p != k)
  {
    var name := BackupName(prefix, iso);
    var listing := if name in names then names else names + [name];
    var after := AfterBackup(names, prefix, iso);
    assert after == Filter(listing, (n: string) => n !in Pruned(prefix, listing));
    assert forall n :: n in listing <==> n in names || n == name;
    AfterBackupDistinct(names, prefix, iso);
    RotationCount(names, prefix, iso);
    ListingDistinct(names, name);
    AtMostTenRemain(prefix, listing);
    forall p, k | (p in names || p == name) && p !in after && k in after && IsBackup(prefix, k)
      ensures LexLeq(p, k) && p != k
    {
      assert p in listing;
    }
  }

  /** Helper for `BackupRotation`: how many of this store's backups remain. */
  lemma RotationCount(names: seq<string>, prefix: string, iso: string)
    requires Distinct(names)
    ensures var after := AfterBackup(names, prefix, iso);
      |Filter(after, (n: string) => IsBackup(prefix, n))|
        == KeptCount(|Filter(names, (n: string) => IsBackup(prefix, n))|
                     + (if BackupName(prefix, iso) in names then 0 else 1))
  {
    var name := BackupName(prefix, iso);
    var listing := if name in names then names else names + [name];
    ListingDistinct(names, name);
    AtMostTenRemain(prefix, listing);
    CopyCounted(names, prefix, iso);
  }

  /** The listing after the copy stays duplicate-free. */
  lemma ListingDistinct(names: seq<string>, name: string)
    requires Distinct(names)
    ensures Distinct(if name in names then names else names + [name])
  {
  }

  /** Adding the stamped copy adds one matching name, unless it was there already. */
  lemma CopyCounted(names: seq<string>, prefix: string, iso: string)
    ensures var name := BackupName(prefix, iso);
      var listing := if name in names then names else names + [name];
      |Filter(listing, (n: string) => IsBackup(prefix, n))|
        == |Filter(names, (n: string) => IsBackup(prefix, n))| + (if name in names then 0 else 1)
  {
    var name := BackupName(prefix, iso);
    if name !in names {
      FilterAppend(names, [name], (n: string) => IsBackup(prefix, n));
    }
  }
}
