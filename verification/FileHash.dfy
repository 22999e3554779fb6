// The file index of filehash.c: 512 bucket lists of files, and a flag in each file that says
// whether it is on one.  The hash of a name is a parameter; each list is a sequence.
module FileHash {
  import opened Bits
  import opened Wrappers

  const HASH_BUCKETS: nat := 512
  const HASH_MASK: nat := 511

  class File {
    const name: Option<string>
    var hashed: bool

    constructor (name: Option<string>)
      ensures this.name == name && !hashed
    {
      this.name := name;
      hashed := false;
    }
  }

  function Bucket(jhash: string -> nat, name: string): (b: nat)
    ensures b < HASH_BUCKETS && b == jhash(name) % HASH_BUCKETS
  {
    AndMask(jhash(name), 9);
    And(jhash(name), HASH_MASK)
  }

  // File f is the one hashed under its name.
  predicate Indexed(byName: map<string, File>, f: File) {
    f.name.Some? && f.name.value in byName && byName[f.name.value] == f
  }

  // The bucket lists hold exactly the files of the map, each once, in the bucket of its name.
  ghost predicate Lists(jhash: string -> nat, buckets: seq<seq<File>>, byName: map<string, File>) {
    && |buckets| == HASH_BUCKETS
    && (forall b :: 0 <= b < HASH_BUCKETS ==> Distinct(buckets[b]))
    && (forall b, f :: 0 <= b < HASH_BUCKETS && f in buckets[b] ==> Indexed(byName, f) && Bucket(jhash, f.name.value) == b)
    && (forall n :: n in byName ==> byName[n].name == Some(n) && byName[n] in buckets[Bucket(jhash, n)])
  }

  // The lists with file f behind the others in its bucket.
  function WithFile(jhash: string -> nat, buckets: seq<seq<File>>, f: File): seq<seq<File>>
    requires |buckets| == HASH_BUCKETS && f.name.Some?
  {
    var b := Bucket(jhash, f.name.value);
    buckets[b := buckets[b] + [f]]
  }

  lemma AddLists(jhash: string -> nat, buckets: seq<seq<File>>, byName: map<string, File>, f: File)
    requires Lists(jhash, buckets, byName) && f.name.Some? && f.name.value !in byName
    ensures Lists(jhash, WithFile(jhash, buckets, f), byName[f.name.value := f])
  {
    var b := Bucket(jhash, f.name.value);
    var buckets', byName' := buckets[b := buckets[b] + [f]], byName[f.name.value := f];
    assert f !in buckets[b];
    forall c | 0 <= c < HASH_BUCKETS
      ensures Distinct(buckets'[c])
    {
      assert Distinct(buckets[c]);
    }
    forall c, g | 0 <= c < HASH_BUCKETS && g in buckets'[c]
      ensures Indexed(byName', g) && Bucket(jhash, g.name.value) == c
    {
      assert g in buckets[c] || g == f;
    }
  }

  lemma RemoveLists(jhash: string -> nat, buckets: seq<seq<File>>, byName: map<string, File>, f: File)
    requires Lists(jhash, buckets, byName) && Indexed(byName, f)
    ensures var b := Bucket(jhash, f.name.value);
            f in buckets[b] && Lists(jhash, buckets[b := Without(buckets[b], f)], byName - {f.name.value})
  {
    var b := Bucket(jhash, f.name.value);
    var buckets', byName' := buckets[b := Without(buckets[b], f)], byName - {f.name.value};
    WithoutMember(buckets[b], f);
    forall c | 0 <= c < HASH_BUCKETS
      ensures Distinct(buckets'[c])
    {
      assert Distinct(buckets[c]);
    }
    forall c, g | 0 <= c < HASH_BUCKETS && g in buckets'[c]
      ensures Indexed(byName', g) && Bucket(jhash, g.name.value) == c
    {
      if c == b {
        var i :| 0 <= i < |Without(buckets[b], f)| && Without(buckets[b], f)[i] == g;
        assert Without(buckets[b], f)[i] in buckets[b];
      }
      assert g in buckets[c];
    }
    forall n | n in byName'
      ensures byName'[n].name == Some(n) && byName'[n] in buckets'[Bucket(jhash, n)]
    {
      assert byName[n] in buckets[Bucket(jhash, n)];
    }
  }

  // Looking a name up in its bucket is looking it up in the map.
  lemma LookupIs(jhash: string -> nat, buckets: seq<seq<File>>, byName: map<string, File>, name: string)
    requires Lists(jhash, buckets, byName)
    ensures var bucket := buckets[Bucket(jhash, name)];
            && (forall k :: 0 <= k < |bucket| && bucket[k].name == Some(name) ==> name in byName && byName[name] == bucket[k])
            && ((forall k :: 0 <= k < |bucket| ==> bucket[k].name != Some(name)) ==> name !in byName)
  {
    var bucket := buckets[Bucket(jhash, name)];
    forall k | 0 <= k < |bucket| && bucket[k].name == Some(name)
      ensures name in byName && byName[name] == bucket[k]
    {
      assert bucket[k] in bucket;
    }
    if name in byName {
      assert byName[name] in bucket;
    }
  }

  class Index {
    const jhash: string -> nat
    const buckets: array<seq<File>>

    // The map from names to hashed files, and all files that were ever given to the index.
    ghost var byName: map<string, File>
    ghost var known: set<File>

    // The flag of every known file tells whether it is hashed.
    ghost predicate Valid()
      reads this, buckets, known
    {
      && Lists(jhash, buckets[..], byName)
      && (forall n :: n in byName ==> byName[n] in known)
      && (forall f :: f in known ==> (f.hashed <==> Indexed(byName, f)))
    }

    // file_hash_init
    constructor (jhash: string -> nat)
      ensures Valid() && fresh(buckets) && byName == map[] && known == {} && this.jhash == jhash
    {
      this.jhash := jhash;
      buckets := new seq<File>[HASH_BUCKETS](_ => []);
      byName, known := map[], {};
    }

    // __lookup_file_hash
    method Lookup(name: string) returns (found: File?)
      requires Valid()
      ensures found == if name in byName then byName[name] else null
    {
      LookupIs(jhash, buckets[..], byName, name);
      var bucket := buckets[Bucket(jhash, name)];
      for i := 0 to |bucket|
        invariant forall k :: 0 <= k < i ==> bucket[k].name != Some(name)
      {
        var f := bucket[i];
        if f.name.None? {
          continue;
        }
        if f.name.value == name {
          return f;
        }
      }
      return null;
    }

    // add_file_hash: returns the file already hashed under the name, if there is one.
    method Add(f: File) returns (alias: File?)
      requires Valid() && f.name.Some? && (f !in known ==> !f.hashed)
      modifies this, buckets, f
      ensures Valid() && known == old(known) + {f}
      ensures var n := f.name.value;
              if old(f.hashed) then alias == null && byName == old(byName) && f.hashed
              else if n in old(byName) then alias == old(byName)[n] && byName == old(byName) && !f.hashed
              else alias == null && byName == old(byName)[n := f] && f.hashed
    {
      if f.hashed {
        known := known + {f};
        return null;
      }
      assert !Indexed(byName, f);
      alias := Lookup(f.name.value);
      if alias == null {
        AddLists(jhash, buckets[..], byName, f);
        Hash(f);
      } else {
        known := known + {f};
      }
    }

    // The file is new: it gets its flag, and goes to the end of its bucket.
    method Hash(f: File)
      requires Valid() && f.name.Some? && f.name.value !in byName
      requires Lists(jhash, WithFile(jhash, buckets[..], f), byName[f.name.value := f])
      modifies this, buckets, f
      ensures Valid() && known == old(known) + {f} && f.hashed
      ensures byName == old(byName)[f.name.value := f]
    {
      var b := Bucket(jhash, f.name.value);
      ghost var was := buckets[..];
      f.hashed := true;
      buckets[b] := buckets[b] + [f];
      assert buckets[..] == WithFile(jhash, was, f);
      known := known + {f};
      byName := byName[f.name.value := f];
    }

    // remove_file_hash
    method Remove(f: File)
      requires Valid() && (f !in known ==> !f.hashed)
      modifies this, buckets, f
      ensures Valid() && known == old(known) && !f.hashed
      ensures byName == if old(f.hashed) then old(byName) - {f.name.value} else old(byName)
    {
      if f.hashed {
        RemoveLists(jhash, buckets[..], byName, f);
        var b := Bucket(jhash, f.name.value);
        assert buckets[b] != [];
        ghost var was := buckets[..];
        buckets[b] := Without(buckets[b], f);
        assert buckets[..] == was[b := Without(was[b], f)];
        f.hashed := false;
        byName := byName - {f.name.value};
      }
    }
  }
}
