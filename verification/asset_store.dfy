/**
  The asset store's decisions over the upload directory, seen as the
  sequence of file names a directory listing returns.
 */
module AssetStore {
  import opened Wrappers
  import opened Decimal
  import opened Seqs
  import opened Pick

  /** Files one upload request may carry. */
  const MaxFiles := 20

  /** The outcome of a request: HTTP 200, 404 or 500. */
  datatype Status = Ok | NotFound | ServerError

  /** The name an upload is stored under: the millisecond timestamp, '-', then the original name. */
  function StoredName(timestamp: nat, original: string): (name: string)
    ensures |name| > |original| && name[|name| - |original|..] == original
    ensures name[0] != '-' && IsDigit(name[0])
  {
    Digits(timestamp) + "-" + original
  }

  /** Length of the run of decimal digits that s starts with. */
  function LeadingDigits(s: string): (k: nat)
    ensures k <= |s|
    ensures AllDigits(s[..k])
    ensures k < |s| ==> !IsDigit(s[k])
  {
    if s != [] && IsDigit(s[0]) then 1 + LeadingDigits(s[1..]) else 0
  }

  /** Reads a stored name back into its timestamp and original name. */
  function ParseStoredName(name: string): Option<(nat, string)> {
    var k := LeadingDigits(name);
    if 0 < k < |name| && name[k] == '-' then Some((Value(name[..k]), name[k + 1..]))
    else None
  }

  lemma {:induction false} LeadingDigitsOf(a: string, b: string)
    requires AllDigits(a) && (b == [] || !IsDigit(b[0]))
    ensures LeadingDigits(a + b) == |a|
    decreases |a|
  {
    if a != [] {
      assert (a + b)[1..] == a[1..] + b;
      LeadingDigitsOf(a[1..], b);
    } else {
      assert a + b == b;
    }
  }

  /** The stored name keeps both the timestamp and the original name recoverable. */
  lemma ParseStoredNameInverse(timestamp: nat, original: string)
    ensures ParseStoredName(StoredName(timestamp, original)) == Some((timestamp, original))
  {
    var d := Digits(timestamp);
    var name := StoredName(timestamp, original);
    assert name == d + ("-" + original);
    LeadingDigitsOf(d, "-" + original);
    assert name[..|d|] == d;
    assert name[|d| + 1..] == original;
    ValueOfDigits(timestamp);
  }

  /** Two uploads get the same stored name only with the same timestamp and original name. */
  lemma StoredNameInjective(t1: nat, o1: string, t2: nat, o2: string)
    requires StoredName(t1, o1) == StoredName(t2, o2)
    ensures t1 == t2 && o1 == o2
  {
    ParseStoredNameInverse(t1, o1);
    ParseStoredNameInverse(t2, o2);
  }

  /** The names an upload writes, one per file, stamped with that file's clock reading. */
  function StoredNames(originals: seq<string>, clock: seq<nat>): (names: seq<string>)
    requires |clock| == |originals|
    ensures |names| == |originals|
  {
    seq(|originals|, i requires 0 <= i < |originals| => StoredName(clock[i], originals[i]))
  }

  /**
    Writing a file: a new name joins the directory (this model lists it
    last), an existing one is overwritten and keeps its single entry.
   */
  function AddName(names: seq<string>, name: string): (r: seq<string>)
    ensures Distinct(names) ==> Distinct(r)
    ensures forall n :: n in r <==> n in names || n == name
    ensures |r| == if name in names then |names| else |names| + 1
  {
    if name in names then names else names + [name]
  }

  /**
    Writing several files one after another: the directory stays free of
    repetitions and its names are exactly the old ones plus the written ones.
   */
  function AddAll(names: seq<string>, added: seq<string>): (r: seq<string>)
    ensures Distinct(names) ==> Distinct(r)
    ensures forall n :: n in r <==> n in names || n in added
    decreases |added|
  {
    if added == [] then names
    else
      assert forall n :: n in added <==> n == added[0] || n in added[1..];
      AddAll(AddName(names, added[0]), added[1..])
  }

  lemma {:induction false} AddAllSnoc(names: seq<string>, added: seq<string>, name: string)
    ensures AddAll(names, added + [name]) == AddName(AddAll(names, added), name)
    decreases |added|
  {
    if added == [] {
      assert [name][1..] == [];
    } else {
      assert (added + [name])[1..] == added[1..] + [name];
      AddAllSnoc(AddName(names, added[0]), added[1..], name);
    }
  }

  /** In this model's listing order, writing files keeps every earlier entry where it was. */
  lemma {:induction false} AddAllKeepsPrefix(names: seq<string>, added: seq<string>)
    ensures |AddAll(names, added)| >= |names| && AddAll(names, added)[..|names|] == names
    decreases |added|
  {
    if added != [] {
      var next := AddName(names, added[0]);
      AddAllKeepsPrefix(next, added[1..]);
      var all := AddAll(next, added[1..]);
      assert all[..|names|] == all[..|next|][..|names|];
    }
  }

  /** When every written name is new and distinct, the directory grows by exactly those names. */
  lemma {:induction false} AddAllFresh(names: seq<string>, added: seq<string>)
    requires Distinct(added)
    requires forall n :: n in added ==> n !in names
    ensures AddAll(names, added) == names + added
    decreases |added|
  {
    if added != [] {
      assert added[0] !in names;
      forall n | n in added[1..] ensures n !in names + [added[0]] {
        assert n in added;
        assert n != added[0];
      }
      assert Distinct(added[1..]) by {
        forall i, j | 0 <= i < j < |added[1..]| ensures added[1..][i] != added[1..][j] {
          assert added[1..][i] == added[i + 1] && added[1..][j] == added[j + 1];
        }
      }
      AddAllFresh(names + [added[0]], added[1..]);
      assert names + [added[0]] + added[1..] == names + added;
    }
  }

  /** Writing the first i + 1 files is writing the first i, then file i. */
  lemma WriteNext(names: seq<string>, added: seq<string>, i: nat)
    requires i < |added|
    ensures AddAll(names, added[..i + 1]) == AddName(AddAll(names, added[..i]), added[i])
  {
    assert added[..i + 1] == added[..i] + [added[i]];
    AddAllSnoc(names, added[..i], added[i]);
  }

  class Store {
    /** The upload directory's entries, in listing order. */
    var names: seq<string>

    /** A directory lists every entry once. */
    ghost predicate Valid()
      reads this
    {
      Distinct(names)
    }

    /** The store over a directory that already holds `existing`. */
    constructor (existing: seq<string>)
      requires Distinct(existing)
      ensures Valid() && names == existing
    {
      names := existing;
    }

    /**
      `POST /upload`: more than MaxFiles files fail the request and store
      nothing; otherwise each file is written under its stored name, read
      from the clock as it is written.
     */
    method Upload(originals: seq<string>, clock: seq<nat>) returns (status: Status)
      requires Valid() && |clock| == |originals|
      modifies this
      ensures Valid()
      ensures |originals| > MaxFiles ==> status == ServerError && names == old(names)
      ensures |originals| <= MaxFiles ==>
        status == Ok && names == AddAll(old(names), StoredNames(originals, clock))
      ensures |originals| <= MaxFiles ==> forall n ::
        n in names <==> n in old(names) || n in StoredNames(originals, clock)
      ensures |originals| <= MaxFiles ==>
        |names| >= |old(names)| && names[..|old(names)|] == old(names)
    {
      if |originals| > MaxFiles {
        return ServerError;
      }
      var stored := StoredNames(originals, clock);
      ghost var before := names;
      var i := 0;
      while i < |stored|
        invariant 0 <= i <= |stored|
        invariant names == AddAll(before, stored[..i])
      {
        WriteNext(before, stored, i);
        names := AddName(names, stored[i]);
        i := i + 1;
      }
      assert stored[..i] == stored;
      AddAllKeepsPrefix(old(names), stored);
      return Ok;
    }

    /** `GET /sounds`: the directory's entries, as they are. */
    method List() returns (files: seq<string>)
      ensures files == names
    {
      files := names;
    }

    /** `GET /random`: 404 on an empty directory, else the entry at floor(r * count). */
    method Random(r: real) returns (status: Status, file: Option<string>)
      requires 0.0 <= r < 1.0
      ensures status == NotFound <==> names == []
      ensures status == NotFound ==> file == None
      ensures status != NotFound ==> status == Ok && file.Some? && file.value in names
    {
      var files := names;
      if |files| == 0 {
        return NotFound, None;
      }
      var i := PickIndex(|files|, r);
      return Ok, Some(files[i]);
    }

    /**
      `DELETE /delete/:name`: 404 if there is no such entry; 500 with nothing
      changed if removing it fails; otherwise the entry is gone and every
      other entry stays (in this model's listing order, the rest keep their order).
     */
    method Delete(name: string, unlinkFails: bool) returns (status: Status)
      requires Valid()
      modifies this
      ensures Valid()
      ensures name !in old(names) ==> status == NotFound && names == old(names)
      ensures name in old(names) && unlinkFails ==> status == ServerError && names == old(names)
      ensures name in old(names) && !unlinkFails ==>
        status == Ok && names == Without(old(names), name) && |names| == |old(names)| - 1
      ensures forall n :: n != name ==> (n in names <==> n in old(names))
    {
      if name !in names {
        return NotFound;
      }
      if unlinkFails {
        return ServerError;
      }
      WithoutDistinct(names, name);
      WithoutCounts(names, name);
      names := Without(names, name);
      forall n | n != name ensures n in names <==> n in old(names) {
        assert multiset(names)[n] == multiset(old(names))[n];
      }
      return Ok;
    }
  }
}
