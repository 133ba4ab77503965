/** write_hash_of_string and read_hash_of_string for the data of NMSettingUser: a dictionary, its keys
    escaped, as one keyfile group. */
module UserData {
  import opened Text
  import opened KeyFile
  import opened KeyCodec
  import opened StrOrder

  type Dict = map<bytes, bytes>

  predicate NamesOk(hash: Dict) {
    forall k :: k in hash ==> NoNul(k)
  }

  /** The group after the given names of the dictionary have been written to it. */
  function Written(g: Group, names: seq<bytes>, hash: Dict): Group
    requires forall k :: k in names ==> k in hash
  {
    if names == [] then g
    else
      var n := |names| - 1;
      Set(Written(g, names[..n], hash), Encode(names[n]), hash[names[n]])
  }

  /** The dictionary after the given keys of the group have been read. */
  function ReadBack(g: Group, keys: seq<bytes>): Dict {
    if keys == [] then map[]
    else
      var n := |keys| - 1;
      var before := ReadBack(g, keys[..n]);
      if keys[n] in g.vals then before[Decode(keys[n]) := g.vals[keys[n]]] else before
  }

  /** The group holds exactly the escaped form of the dictionary. */
  ghost predicate Represents(g: Group, hash: Dict) {
    && (forall x :: x in g.vals <==> exists k :: k in hash && x == Encode(k))
    && (forall k :: k in hash ==> Encode(k) in g.vals && g.vals[Encode(k)] == hash[k])
  }

  lemma {:induction false} WrittenRepresents(names: seq<bytes>, hash: Dict)
    requires NamesOk(hash) && forall k :: k in names <==> k in hash
    ensures Represents(Written(EMPTY_GROUP, names, hash), hash)
    ensures WellFormed(Written(EMPTY_GROUP, names, hash))
  {
    WrittenPart(names, hash);
    var g := Written(EMPTY_GROUP, names, hash);
    forall x ensures x in g.vals <==> exists k :: k in hash && x == Encode(k) {
      if k :| k in hash && x == Encode(k) {
        assert k in names && x in g.vals;
      }
    }
  }

  lemma {:induction false} WrittenPart(names: seq<bytes>, hash: Dict)
    requires NamesOk(hash) && forall k :: k in names ==> k in hash
    ensures var g := Written(EMPTY_GROUP, names, hash);
            && WellFormed(g)
            && (forall x :: x in g.vals ==> exists k :: k in names && x == Encode(k))
            && (forall k :: k in names ==> Encode(k) in g.vals && g.vals[Encode(k)] == hash[k])
  {
    hide Encode;
    if names != [] {
      var n := |names| - 1;
      WrittenPart(names[..n], hash);
      var before := Written(EMPTY_GROUP, names[..n], hash);
      var g := Written(EMPTY_GROUP, names, hash);
      assert forall k :: k in names <==> k in names[..n] || k == names[n];
      forall k | k in names ensures Encode(k) in g.vals && g.vals[Encode(k)] == hash[k] {
        if Encode(k) == Encode(names[n]) { Injective(k, names[n]); }
      }
      forall x | x in g.vals ensures exists k :: k in names && x == Encode(k) {
        if x != Encode(names[n]) {
          var k :| k in names[..n] && x == Encode(k);
          assert k in names;
        } else {
          assert names[n] in names;
        }
      }
    }
  }

  /** The last of a list of distinct names is new to the group. */
  lemma NewKey(names: seq<bytes>, hash: Dict)
    requires NamesOk(hash) && Sorted(names) && names != [] && forall k :: k in names ==> k in hash
    ensures var n := |names| - 1; Encode(names[n]) !in Written(EMPTY_GROUP, names[..n], hash).vals
  {
    hide Encode, Written, Less;
    var n := |names| - 1;
    WrittenPart(names[..n], hash);
    assert names[n] in names;
    forall i | 0 <= i < n ensures Encode(names[i]) != Encode(names[n]) {
      assert names[i] in names;
      if Encode(names[i]) == Encode(names[n]) {
        Injective(names[i], names[n]);
        SortedDistinct(names, i, n);
      }
    }
  }

  /** The group lists the escaped names in the order in which they were written. */
  lemma {:induction false} WrittenKeys(names: seq<bytes>, hash: Dict)
    requires NamesOk(hash) && Sorted(names) && forall k :: k in names ==> k in hash
    ensures var g := Written(EMPTY_GROUP, names, hash);
            |g.keys| == |names| && forall i :: 0 <= i < |names| ==> g.keys[i] == Encode(names[i])
  {
    hide Encode, Less;
    if names != [] {
      var n := |names| - 1;
      WrittenKeys(names[..n], hash);
      NewKey(names, hash);
    }
  }

  /** Reading decodes each key to the name it was made from, so nothing is lost or confused. */
  lemma {:induction false} ReadPart(g: Group, keys: seq<bytes>, hash: Dict)
    requires NamesOk(hash) && Represents(g, hash) && forall x :: x in keys ==> x in g.vals
    ensures forall k :: k in ReadBack(g, keys) <==> k in hash && Encode(k) in keys
    ensures forall k :: k in ReadBack(g, keys) ==> ReadBack(g, keys)[k] == hash[k]
  {
    if keys != [] {
      var n := |keys| - 1;
      ReadPart(g, keys[..n], hash);
      assert forall x :: x in keys <==> x in keys[..n] || x == keys[n];
      assert keys[n] in g.vals;
      var name :| name in hash && keys[n] == Encode(name);
      RoundTrip(name);
      forall k | k in hash && Encode(k) == keys[n] ensures k == name {
        Injective(k, name);
      }
    }
  }

  /** Any dictionary with NUL-free names survives being written and read back exactly, in whichever
      order, and however often, the keyfile lists its keys. */
  lemma DictionaryRoundTrip(names: seq<bytes>, keys: seq<bytes>, hash: Dict)
    requires NamesOk(hash) && forall k :: k in names <==> k in hash
    requires forall x :: x in keys <==> x in Written(EMPTY_GROUP, names, hash).vals
    ensures ReadBack(Written(EMPTY_GROUP, names, hash), keys) == hash
  {
    var g := Written(EMPTY_GROUP, names, hash);
    WrittenRepresents(names, hash);
    ReadPart(g, keys, hash);
    assert forall k :: k in hash ==> Encode(k) in keys;
  }

  method WriteHashOfString(file: KeyGroup, hash: Dict)
    requires NamesOk(hash)
    modifies file
    ensures exists names :: Sorted(names) && (forall k :: k in names <==> k in hash)
                            && file.Contents() == Written(old(file.Contents()), names, hash)
  {
    var names := SortKeys(hash.Keys);
    for i := 0 to |names|
      invariant file.Contents() == Written(old(file.Contents()), names[..i], hash)
    {
      assert names[i] in names;
      assert names[..i + 1][..i] == names[..i];
      var key, copied := KeyfileKeyEncode(names[i]);
      file.SetString(key, hash[names[i]]);
    }
    assert names[..|names|] == names;
  }

  method ReadHashOfString(file: KeyGroup) returns (data: Dict)
    requires forall x :: x in file.keys ==> NoNul(x)
    ensures data == ReadBack(file.Contents(), file.keys)
  {
    var keys := file.GetKeys();
    data := map[];
    for i := 0 to |keys|
      invariant data == ReadBack(file.Contents(), keys[..i])
    {
      assert keys[..i + 1][..i] == keys[..i];
      var value := file.GetString(keys[i]);
      if value.None? {
        continue;
      }
      assert keys[i] in keys;
      var name, copied := KeyfileKeyDecode(keys[i]);
      data := data[name := value.value];
    }
    assert keys[..|keys|] == keys;
  }
}
