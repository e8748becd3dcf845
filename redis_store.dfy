/**
 * The part of Redis the dashboard cache uses: plain string keys (GET, SET,
 * EXISTS) and hash keys (HGET, HSET, HEXISTS) in one key space. A command on
 * a key of the other kind is answered with a WRONGTYPE error.
 */
module RedisStore {
  import opened Wrappers

  /** A Redis reply: a value, or the WRONGTYPE error. */
  datatype Reply<T> = Ok(value: T) | WrongType

  /** The database: the string keys and the hash keys, each hash a map from field to value. */
  datatype Store = Store(strings: map<string, string>, hashes: map<string, map<string, string>>)
  {
    /** A key is of one kind only, and Redis deletes a hash when its last field goes. */
    predicate Valid()
    {
      && strings.Keys !! hashes.Keys
      && forall k :: k in hashes ==> |hashes[k]| > 0
    }

    /** EXISTS: the number of the given keys that exist. */
    function Exists(key: string): (n: nat)
      ensures n <= 1
      ensures n > 0 <==> key in strings || key in hashes
    {
      if key in strings || key in hashes then 1 else 0
    }

    /** GET: the string stored under `key`, nil when there is none. */
    function Get(key: string): (r: Reply<Option<string>>)
      ensures r == WrongType <==> key in hashes && key !in strings
      ensures r.Ok? && r.value.Some? <==> key in strings
      ensures r.Ok? && r.value.Some? ==> r.value.value == strings[key]
    {
      if key in strings then Ok(Some(strings[key]))
      else if key in hashes then WrongType
      else Ok(None)
    }

    /** SET: stores the string under `key`, replacing whatever the key held, of either kind. */
    function Set(key: string, value: string): (st: Store)
      ensures st.strings.Keys == strings.Keys + {key} && st.strings[key] == value
      ensures st.hashes.Keys == hashes.Keys - {key}
      ensures forall k :: k in strings && k != key ==> st.strings[k] == strings[k]
      ensures forall k :: k in hashes && k != key ==> st.hashes[k] == hashes[k]
    {
      Store(strings[key := value], hashes - {key})
    }

    /** HEXISTS: whether the hash under `key` has `field`. */
    function HExists(key: string, field: string): (r: Reply<bool>)
      ensures r == WrongType <==> key in strings
      ensures r.Ok? ==> (r.value <==> key in hashes && field in hashes[key])
    {
      if key in strings then WrongType
      else Ok(key in hashes && field in hashes[key])
    }

    /** HGET: the value of `field` in the hash under `key`, nil when there is none. */
    function HGet(key: string, field: string): (r: Reply<Option<string>>)
      ensures r == WrongType <==> key in strings
      ensures r.Ok? && r.value.Some? <==> key !in strings && key in hashes && field in hashes[key]
      ensures r.Ok? && r.value.Some? ==> r.value.value == hashes[key][field]
    {
      if key in strings then WrongType
      else if key in hashes && field in hashes[key] then Ok(Some(hashes[key][field]))
      else Ok(None)
    }

    /** HSET: sets `field` of the hash under `key`, creating the hash if need be. */
    function HSet(key: string, field: string, value: string): (r: Reply<Store>)
      ensures r == WrongType <==> key in strings
      ensures r.Ok? ==>
        && r.value.strings == strings
        && r.value.hashes.Keys == hashes.Keys + {key}
        && r.value.hashes[key].Keys == (if key in hashes then hashes[key].Keys else {}) + {field}
        && r.value.hashes[key][field] == value
        && (forall f :: key in hashes && f in hashes[key] && f != field ==> r.value.hashes[key][f] == hashes[key][f])
        && (forall k :: k in hashes && k != key ==> r.value.hashes[k] == hashes[k])
    {
      if key in strings then WrongType
      else
        var h := if key in hashes then hashes[key] else map[];
        Ok(Store(strings, hashes[key := h[field := value]]))
    }

    /** HSET's reply: the number of fields it added. */
    function HSetAdded(key: string, field: string): (n: nat)
      ensures n == 1 <==> !(key in hashes && field in hashes[key])
      ensures n <= 1
    {
      if key in hashes && field in hashes[key] then 0 else 1
    }
  }

  /** SET keeps the key kinds apart; its value is what GET then reads. */
  lemma SetThenGet(st: Store, key: string, value: string)
    requires st.Valid()
    ensures st.Set(key, value).Valid()
    ensures st.Set(key, value).Get(key) == Ok(Some(value))
    ensures st.Set(key, value).Exists(key) == 1
  {
    var s := st.Set(key, value);
    forall k | k in s.hashes ensures |s.hashes[k]| > 0 {
      assert k in st.hashes && s.hashes[k] == st.hashes[k];
    }
  }

  /** HSET keeps the key kinds apart, and its value is what HGET then reads under that field. */
  lemma HSetThenHGet(st: Store, key: string, field: string, value: string)
    requires st.Valid() && key !in st.strings
    ensures st.HSet(key, field, value).Ok? && st.HSet(key, field, value).value.Valid()
    ensures st.HSet(key, field, value).value.HGet(key, field) == Ok(Some(value))
    ensures st.HSet(key, field, value).value.HExists(key, field) == Ok(true)
  {
    var s := st.HSet(key, field, value).value;
    forall k | k in s.hashes ensures |s.hashes[k]| > 0 {
      if k == key {
        assert field in s.hashes[k];
      } else {
        assert s.hashes[k] == st.hashes[k];
      }
    }
  }

  /** HSET of one field leaves every other field of every hash as HGET read it before. */
  lemma HSetKeepsOtherFields(st: Store, key: string, field: string, value: string, key2: string, field2: string)
    requires key !in st.strings
    requires key2 != key || field2 != field
    ensures st.HSet(key, field, value).Ok?
    ensures st.HSet(key, field, value).value.HGet(key2, field2) == st.HGet(key2, field2)
  {
    var s := st.HSet(key, field, value).value;
    if key2 == key {
      assert field2 in s.hashes[key] <==> key in st.hashes && field2 in st.hashes[key];
    }
  }

  /** HEXISTS answers yes exactly when HGET finds a value. */
  lemma HExistsIsHGetFound(st: Store, key: string, field: string)
    ensures st.HExists(key, field) == WrongType <==> st.HGet(key, field) == WrongType
    ensures st.HExists(key, field) == Ok(true) <==> st.HGet(key, field).Ok? && st.HGet(key, field).value.Some?
  {
  }

  /** The Redis client the dashboard uses: its database is the state of one object. */
  class Redis {
    var strings: map<string, string>
    var hashes: map<string, map<string, string>>

    function State(): Store
      reads this
    {
      Store(strings, hashes)
    }

    constructor ()
      ensures State() == Store(map[], map[]) && State().Valid()
    {
      strings := map[];
      hashes := map[];
    }

    method Exists(key: string) returns (n: nat)
      ensures n == State().Exists(key)
    {
      n := if key in strings || key in hashes then 1 else 0;
    }

    method Get(key: string) returns (r: Reply<Option<string>>)
      ensures r == State().Get(key)
    {
      if key in strings {
        r := Ok(Some(strings[key]));
      } else if key in hashes {
        r := WrongType;
      } else {
        r := Ok(None);
      }
    }

    method Set(key: string, value: string)
      modifies this
      ensures State() == old(State()).Set(key, value)
    {
      strings := strings[key := value];
      hashes := hashes - {key};
    }

    method HExists(key: string, field: string) returns (r: Reply<bool>)
      ensures r == State().HExists(key, field)
    {
      if key in strings {
        r := WrongType;
      } else {
        r := Ok(key in hashes && field in hashes[key]);
      }
    }

    method HGet(key: string, field: string) returns (r: Reply<Option<string>>)
      ensures r == State().HGet(key, field)
    {
      if key in strings {
        r := WrongType;
      } else if key in hashes && field in hashes[key] {
        r := Ok(Some(hashes[key][field]));
      } else {
        r := Ok(None);
      }
    }

    /** HSET: on WRONGTYPE nothing changes. */
    method HSet(key: string, field: string, value: string) returns (r: Reply<nat>)
      modifies this
      ensures old(State()).HSet(key, field, value).Ok? ==>
        State() == old(State()).HSet(key, field, value).value && r == Ok(old(State()).HSetAdded(key, field))
      ensures old(State()).HSet(key, field, value) == WrongType ==> State() == old(State()) && r == WrongType
    {
      if key in strings {
        r := WrongType;
      } else {
        var h := if key in hashes then hashes[key] else map[];
        r := Ok(if field in h then 0 else 1);
        hashes := hashes[key := h[field := value]];
      }
    }
  }
}
