/** One group of a GKeyFile: keys in the order in which they were first set, each with its latest value.
    g_key_file_set_string and g_key_file_get_string are taken as inverses of each other. */
module KeyFile {
  import opened Options
  import opened Text

  datatype Group = Group(keys: seq<bytes>, vals: map<bytes, bytes>)

  const EMPTY_GROUP := Group([], map[])

  ghost predicate WellFormed(g: Group) {
    forall k :: k in g.keys <==> k in g.vals
  }

  function Set(g: Group, key: bytes, value: bytes): Group {
    Group(if key in g.vals then g.keys else g.keys + [key], g.vals[key := value])
  }

  function Get(g: Group, key: bytes): Option<bytes> {
    if key in g.vals then Some(g.vals[key]) else None
  }

  class KeyGroup {
    var keys: seq<bytes>
    var vals: map<bytes, bytes>

    function Contents(): Group
      reads this
    {
      Group(keys, vals)
    }

    constructor ()
      ensures Contents() == EMPTY_GROUP
    {
      keys, vals := [], map[];
    }

    method SetString(key: bytes, value: bytes)
      modifies this
      ensures Contents() == Set(old(Contents()), key, value)
    {
      if key !in vals {
        keys := keys + [key];
      }
      vals := vals[key := value];
    }

    method GetString(key: bytes) returns (value: Option<bytes>)
      ensures value == Get(Contents(), key)
    {
      if key in vals {
        return Some(vals[key]);
      }
      return None;
    }

    method GetKeys() returns (list: seq<bytes>)
      ensures list == Contents().keys
    {
      list := keys;
    }
  }
}
