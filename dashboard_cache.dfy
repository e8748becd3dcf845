/**
 * The dashboard's cache-aside strategies. Each looks for its entry in Redis:
 * when it is there the decoded entry is returned, otherwise the data fetched
 * from the database is encoded, stored and returned. The exam dashboard is
 * one string key; the course dashboards share one hash with a field per
 * course. The database query is a parameter: `fetched` is what it returns.
 */
module DashboardCache {
  import opened Wrappers
  import opened PyFormat
  import opened JsonValue
  import opened RedisStore

  /** `CACHE_KEYS`: the Redis key of each dashboard. */
  const CacheKeys: map<string, string> := map[
    "system" := "dashboard:system",
    "exam" := "dashboard:exam",
    "course" := "dashboard:course"]

  /** The three dashboards use three different keys. */
  lemma CacheKeysDistinct()
    ensures CacheKeys.Keys == {"system", "exam", "course"}
    ensures CacheKeys["system"] == "dashboard:system"
    ensures CacheKeys["exam"] == "dashboard:exam"
    ensures CacheKeys["course"] == "dashboard:course"
    ensures CacheKeys["system"] != CacheKeys["exam"]
    ensures CacheKeys["system"] != CacheKeys["course"]
    ensures CacheKeys["exam"] != CacheKeys["course"]
  {
  }

  /** What makes a strategy raise instead of returning. */
  datatype CacheError =
    | RedisWrongType        // Redis answered WRONGTYPE
    | NotJson(text: string) // `json.loads` rejected the stored text
    | NoValue               // `json.loads(None)`: GET found nothing to decode

  /** What a strategy call returns, and the database afterwards. */
  datatype Step = Step(result: Result<Json, CacheError>, store: Store)

  function Decoded(codec: Codec, text: string): Result<Json, CacheError>
  {
    match codec.decode(text)
    case None => Failure(NotJson(text))
    case Some(j) => Success(j)
  }

  // The exam dashboard: one string key.

  /** `validate`: the key exists, of either kind. */
  predicate ExamValidate(st: Store, redisKey: string)
  {
    st.Exists(redisKey) > 0
  }

  /** `get_cached_data`: decodes what GET returns. */
  function ExamCachedData(st: Store, codec: Codec, redisKey: string): Result<Json, CacheError>
  {
    match st.Get(redisKey)
    case WrongType => Failure(RedisWrongType)
    case Ok(None) => Failure(NoValue)
    case Ok(Some(text)) => Decoded(codec, text)
  }

  /** `build_key`: stores the encoded data under the key and returns the data. */
  function ExamBuildKey(st: Store, codec: Codec, redisKey: string, fetched: Json): Step
  {
    Step(Success(fetched), st.Set(redisKey, codec.encode(fetched)))
  }

  /** `do_algorithm`: read the cache when the key exists, fill it otherwise. */
  function ExamAlgorithm(st: Store, codec: Codec, fetched: Json): (r: Step)
    ensures r.store.hashes == st.hashes
    ensures r.store.strings.Keys <= st.strings.Keys + {"dashboard:exam"}
    ensures forall k :: k in st.strings && k != "dashboard:exam" ==> k in r.store.strings && r.store.strings[k] == st.strings[k]
  {
    var redisKey := CacheKeys["exam"];
    if ExamValidate(st, redisKey) then Step(ExamCachedData(st, codec, redisKey), st)
    else ExamBuildKey(st, codec, redisKey, fetched)
  }

  /** On a miss the fetched data is returned and its encoding stored under `dashboard:exam`; nothing else changes. */
  lemma ExamMissCaches(st: Store, codec: Codec, fetched: Json)
    requires "dashboard:exam" !in st.strings && "dashboard:exam" !in st.hashes
    ensures ExamAlgorithm(st, codec, fetched).result == Success(fetched)
    ensures ExamAlgorithm(st, codec, fetched).store.strings == st.strings["dashboard:exam" := codec.encode(fetched)]
    ensures ExamAlgorithm(st, codec, fetched).store.hashes == st.hashes
  {
    assert st.hashes - {"dashboard:exam"} == st.hashes;
  }

  /**
   * On a hit the database is left alone and the stored text is decoded; a key
   * holding a hash makes GET, and so the call, fail with WRONGTYPE.
   */
  lemma ExamHitReadsCache(st: Store, codec: Codec, fetched: Json)
    requires st.Valid()
    requires "dashboard:exam" in st.strings || "dashboard:exam" in st.hashes
    ensures ExamAlgorithm(st, codec, fetched).store == st
    ensures "dashboard:exam" in st.strings ==>
      ExamAlgorithm(st, codec, fetched).result == Decoded(codec, st.strings["dashboard:exam"])
    ensures "dashboard:exam" in st.hashes ==>
      ExamAlgorithm(st, codec, fetched).result == Failure(RedisWrongType)
  {
  }

  /**
   * Once a call has succeeded, the next one finds the cache filled: it returns
   * the same data (whatever the database would now return) and writes nothing.
   */
  lemma ExamSecondCallHits(st: Store, codec: Codec, fetched: Json, fetchedLater: Json)
    requires st.Valid() && Lawful(codec)
    requires ExamAlgorithm(st, codec, fetched).result.Success?
    ensures ExamAlgorithm(ExamAlgorithm(st, codec, fetched).store, codec, fetchedLater) == ExamAlgorithm(st, codec, fetched)
  {
    var key := "dashboard:exam";
    if !ExamValidate(st, key) {
      var s := st.Set(key, codec.encode(fetched));
      assert s.Get(key) == Ok(Some(codec.encode(fetched)));
      assert codec.decode(codec.encode(fetched)) == Some(fetched);
    }
  }

  // The course dashboards: one hash, a field per course.

  /** The hash field of a course: `course:{id_context}`. */
  function CourseField(idContext: Option<int>): string
  {
    "course:" + OptionalIntToString(idContext)
  }

  /** Different courses, and no course against `None`, never share a field. */
  lemma CourseFieldInjective(a: Option<int>, b: Option<int>)
    requires a != b
    ensures CourseField(a) != CourseField(b)
  {
    if CourseField(a) == CourseField(b) {
      var p := "course:";
      assert CourseField(a)[|p|..] == OptionalIntToString(a);
      assert CourseField(b)[|p|..] == OptionalIntToString(b);
      OptionalIntToStringInjective(a, b);
    }
  }

  /** `validate`: HEXISTS of the course's field. */
  function CourseValidate(st: Store, redisKey: string, idContext: Option<int>): Result<bool, CacheError>
  {
    match st.HExists(redisKey, CourseField(idContext))
    case WrongType => Failure(RedisWrongType)
    case Ok(b) => Success(b)
  }

  /** `get_cached_data`: `None` when the field is missing or empty, the decoded field otherwise. */
  function CourseCachedData(st: Store, codec: Codec, redisKey: string, idContext: Option<int>): Result<Json, CacheError>
  {
    match st.HGet(redisKey, CourseField(idContext))
    case WrongType => Failure(RedisWrongType)
    case Ok(None) => Success(JNull)
    case Ok(Some(text)) => if text == "" then Success(JNull) else Decoded(codec, text)
  }

  /** `build_key`: HSET of the course's field to the encoded data; returns the data. */
  function CourseBuildKey(st: Store, codec: Codec, redisKey: string, idContext: Option<int>, fetched: Json): Step
  {
    match st.HSet(redisKey, CourseField(idContext), codec.encode(fetched))
    case WrongType => Step(Failure(RedisWrongType), st)
    case Ok(s) => Step(Success(fetched), s)
  }

  /** `do_algorithm`: read the course's field when it is there, fill it otherwise. */
  function CourseAlgorithm(st: Store, codec: Codec, idContext: Option<int>, fetched: Json): (r: Step)
    ensures r.store.strings == st.strings
    ensures r.store.hashes.Keys <= st.hashes.Keys + {"dashboard:course"}
    ensures forall k :: k in st.hashes && k != "dashboard:course" ==> k in r.store.hashes && r.store.hashes[k] == st.hashes[k]
  {
    var redisKey := CacheKeys["course"];
    match CourseValidate(st, redisKey, idContext)
    case Failure(e) => Step(Failure(e), st)
    case Success(true) => Step(CourseCachedData(st, codec, redisKey, idContext), st)
    case Success(false) => CourseBuildKey(st, codec, redisKey, idContext, fetched)
  }

  /** `validate` is true exactly when the hash has the course's field, and fails on a string key. */
  lemma CourseValidateMeaning(st: Store, idContext: Option<int>)
    ensures CourseValidate(st, "dashboard:course", idContext).Failure? <==> "dashboard:course" in st.strings
    ensures CourseValidate(st, "dashboard:course", idContext) == Success(true) <==>
      "dashboard:course" !in st.strings && "dashboard:course" in st.hashes
      && CourseField(idContext) in st.hashes["dashboard:course"]
  {
  }

  /** `get_cached_data` gives `None` for a missing or empty field, and the decoded text otherwise. */
  lemma CourseCachedDataMeaning(st: Store, codec: Codec, idContext: Option<int>)
    requires "dashboard:course" !in st.strings
    ensures var h := if "dashboard:course" in st.hashes then st.hashes["dashboard:course"] else map[];
      var f := CourseField(idContext);
      && (f !in h || h[f] == "" ==> CourseCachedData(st, codec, "dashboard:course", idContext) == Success(JNull))
      && (f in h && h[f] != "" ==> CourseCachedData(st, codec, "dashboard:course", idContext) == Decoded(codec, h[f]))
  {
  }

  /**
   * On a miss the fetched data is returned and its encoding stored under the
   * course's field; the string keys, the other fields and the other hashes
   * stay as they were.
   */
  lemma CourseMissCaches(st: Store, codec: Codec, idContext: Option<int>, fetched: Json)
    requires "dashboard:course" !in st.strings
    requires "dashboard:course" in st.hashes ==> CourseField(idContext) !in st.hashes["dashboard:course"]
    ensures var s := CourseAlgorithm(st, codec, idContext, fetched);
      var h := if "dashboard:course" in st.hashes then st.hashes["dashboard:course"] else map[];
      && s.result == Success(fetched)
      && s.store.strings == st.strings
      && s.store.hashes == st.hashes["dashboard:course" := h[CourseField(idContext) := codec.encode(fetched)]]
  {
  }

  /**
   * Once a call for a course has succeeded, the next call for that course
   * returns the same data and writes nothing.
   */
  lemma CourseSecondCallHits(st: Store, codec: Codec, idContext: Option<int>, fetched: Json, fetchedLater: Json)
    requires st.Valid() && Lawful(codec)
    requires CourseAlgorithm(st, codec, idContext, fetched).result.Success?
    ensures CourseAlgorithm(CourseAlgorithm(st, codec, idContext, fetched).store, codec, idContext, fetchedLater)
      == CourseAlgorithm(st, codec, idContext, fetched)
  {
    var key := "dashboard:course";
    var f := CourseField(idContext);
    var v := CourseValidate(st, key, idContext);
    if v == Success(false) {
      var text := codec.encode(fetched);
      HSetThenHGet(st, key, f, text);
      var s := st.HSet(key, f, text).value;
      assert s.HGet(key, f) == Ok(Some(text));
      assert |text| > 0 && codec.decode(text) == Some(fetched);
      assert CourseValidate(s, key, idContext) == Success(true);
      assert CourseCachedData(s, codec, key, idContext) == Success(fetched);
    } else if v == Success(true) {
      assert CourseAlgorithm(st, codec, idContext, fetched).store == st;
    }
  }

  /** Filling the cache for one course leaves what every other course reads unchanged. */
  lemma CourseOtherIdsUnaffected(st: Store, codec: Codec, a: Option<int>, b: Option<int>, fetched: Json)
    requires a != b
    ensures var s := CourseAlgorithm(st, codec, a, fetched).store;
      && CourseValidate(s, "dashboard:course", b) == CourseValidate(st, "dashboard:course", b)
      && CourseCachedData(s, codec, "dashboard:course", b) == CourseCachedData(st, codec, "dashboard:course", b)
  {
    var key := "dashboard:course";
    CourseFieldInjective(a, b);
    if CourseValidate(st, key, a) == Success(false) {
      HSetKeepsOtherFields(st, key, CourseField(a), codec.encode(fetched), key, CourseField(b));
      var s := st.HSet(key, CourseField(a), codec.encode(fetched)).value;
      assert CourseAlgorithm(st, codec, a, fetched).store == s;
      HExistsIsHGetFound(s, key, CourseField(b));
      HExistsIsHGetFound(st, key, CourseField(b));
      assert s.HExists(key, CourseField(b)) == st.HExists(key, CourseField(b));
      assert CourseValidate(s, key, b) == CourseValidate(st, key, b);
      assert CourseCachedData(s, codec, key, b) == CourseCachedData(st, codec, key, b);
    } else {
      var s := CourseAlgorithm(st, codec, a, fetched).store;
      assert s == st;
      assert CourseValidate(s, key, b) == CourseValidate(st, key, b);
      assert CourseCachedData(s, codec, key, b) == CourseCachedData(st, codec, key, b);
    }
  }

  /** The exam call never touches the course hash, and a course call never touches the exam key. */
  lemma StrategiesDoNotInterfere(st: Store, codec: Codec, idContext: Option<int>, fetched: Json)
    ensures var s := ExamAlgorithm(st, codec, fetched).store;
      && CourseValidate(s, "dashboard:course", idContext) == CourseValidate(st, "dashboard:course", idContext)
      && CourseCachedData(s, codec, "dashboard:course", idContext) == CourseCachedData(st, codec, "dashboard:course", idContext)
    ensures var s := CourseAlgorithm(st, codec, idContext, fetched).store;
      && ExamValidate(s, "dashboard:exam") == ExamValidate(st, "dashboard:exam")
      && ExamCachedData(s, codec, "dashboard:exam") == ExamCachedData(st, codec, "dashboard:exam")
  {
    ExamLeavesCourse(st, codec, idContext, fetched);
    CourseLeavesExam(st, codec, idContext, fetched);
  }

  lemma ExamLeavesCourse(st: Store, codec: Codec, idContext: Option<int>, fetched: Json)
    ensures var s := ExamAlgorithm(st, codec, fetched).store;
      && CourseValidate(s, "dashboard:course", idContext) == CourseValidate(st, "dashboard:course", idContext)
      && CourseCachedData(s, codec, "dashboard:course", idContext) == CourseCachedData(st, codec, "dashboard:course", idContext)
  {
    var ek, ck := "dashboard:exam", "dashboard:course";
    assert ek != ck by { assert ek[10] != ck[10]; }
    if !ExamValidate(st, ek) {
      var s := st.Set(ek, codec.encode(fetched));
      assert ck in s.strings <==> ck in st.strings;
      assert ck in s.hashes <==> ck in st.hashes;
      assert ck in st.hashes ==> s.hashes[ck] == st.hashes[ck];
    }
  }

  lemma CourseLeavesExam(st: Store, codec: Codec, idContext: Option<int>, fetched: Json)
    ensures var s := CourseAlgorithm(st, codec, idContext, fetched).store;
      && ExamValidate(s, "dashboard:exam") == ExamValidate(st, "dashboard:exam")
      && ExamCachedData(s, codec, "dashboard:exam") == ExamCachedData(st, codec, "dashboard:exam")
  {
    var ek, ck := "dashboard:exam", "dashboard:course";
    assert ek != ck by { assert ek[10] != ck[10]; }
    if CourseValidate(st, ck, idContext) == Success(false) {
      var s := st.HSet(ck, CourseField(idContext), codec.encode(fetched)).value;
      assert s.strings == st.strings;
      assert ek in s.hashes <==> ek in st.hashes;
    }
  }

  /** `GetExamDashboardCache`. */
  class ExamDashboardCache {
    var idContext: Option<int>

    constructor ()
      ensures idContext == None
    {
      idContext := None;
    }

    method DoAlgorithm(redis: Redis, codec: Codec, fetched: Json) returns (r: Result<Json, CacheError>)
      modifies redis
      ensures Step(r, redis.State()) == ExamAlgorithm(old(redis.State()), codec, fetched)
    {
      var redisKey := CacheKeys["exam"];
      var hit := Validate(redis, redisKey);
      if hit {
        r := GetCachedData(redis, codec, redisKey);
      } else {
        var data := BuildKey(redis, codec, redisKey, fetched);
        r := Success(data);
      }
    }

    method Validate(redis: Redis, redisKey: string) returns (b: bool)
      ensures b == ExamValidate(redis.State(), redisKey)
    {
      var n := redis.Exists(redisKey);
      b := n > 0;
    }

    method BuildKey(redis: Redis, codec: Codec, redisKey: string, fetched: Json) returns (data: Json)
      modifies redis
      ensures Step(Success(data), redis.State()) == ExamBuildKey(old(redis.State()), codec, redisKey, fetched)
    {
      var redisReadyData := codec.encode(fetched);
      redis.Set(redisKey, redisReadyData);
      data := fetched;
    }

    method GetCachedData(redis: Redis, codec: Codec, redisKey: string) returns (r: Result<Json, CacheError>)
      ensures r == ExamCachedData(redis.State(), codec, redisKey)
    {
      var reply := redis.Get(redisKey);
      match reply {
        case WrongType => r := Failure(RedisWrongType);
        case Ok(None) => r := Failure(NoValue);
        case Ok(Some(text)) => r := Decoded(codec, text);
      }
    }
  }

  /** `GetCourseDashboardCache`: the course is `idContext`. */
  class CourseDashboardCache {
    var idContext: Option<int>

    constructor ()
      ensures idContext == None
    {
      idContext := None;
    }

    method DoAlgorithm(redis: Redis, codec: Codec, fetched: Json) returns (r: Result<Json, CacheError>)
      modifies redis
      ensures Step(r, redis.State()) == CourseAlgorithm(old(redis.State()), codec, idContext, fetched)
    {
      var redisKey := CacheKeys["course"];
      var hit := Validate(redis, redisKey);
      match hit {
        case Failure(e) => r := Failure(e);
        case Success(true) => r := GetCachedData(redis, codec, redisKey);
        case Success(false) => r := BuildKey(redis, codec, redisKey, fetched);
      }
    }

    method Validate(redis: Redis, redisKey: string) returns (r: Result<bool, CacheError>)
      ensures r == CourseValidate(redis.State(), redisKey, idContext)
    {
      var field := CourseField(idContext);
      var reply := redis.HExists(redisKey, field);
      r := if reply.WrongType? then Failure(RedisWrongType) else Success(reply.value);
    }

    method BuildKey(redis: Redis, codec: Codec, redisKey: string, fetched: Json) returns (r: Result<Json, CacheError>)
      modifies redis
      ensures Step(r, redis.State()) == CourseBuildKey(old(redis.State()), codec, redisKey, idContext, fetched)
    {
      var redisReadyData := codec.encode(fetched);
      var reply := redis.HSet(redisKey, CourseField(idContext), redisReadyData);
      r := if reply.WrongType? then Failure(RedisWrongType) else Success(fetched);
    }

    method GetCachedData(redis: Redis, codec: Codec, redisKey: string) returns (r: Result<Json, CacheError>)
      ensures r == CourseCachedData(redis.State(), codec, redisKey, idContext)
    {
      var field := CourseField(idContext);
      var value := redis.HGet(redisKey, field);
      match value {
        case WrongType => r := Failure(RedisWrongType);
        case Ok(None) => r := Success(JNull);
        case Ok(Some(text)) =>
          if text != "" {
            r := Decoded(codec, text);
          } else {
            r := Success(JNull);
          }
      }
    }
  }

  /** `GetSystemDashboardCache`: both branches of `do_algorithm` are empty. */
  class SystemDashboardCache {
    var idContext: Option<int>

    constructor ()
      ensures idContext == None
    {
      idContext := None;
    }

    /** Returns `None` and reads or writes nothing: it is given no Redis client to touch. */
    method DoAlgorithm() returns (r: Json)
      ensures r == JNull
    {
      r := JNull;
    }

    /** `build_key` returns an empty dict. */
    method BuildKey(redisKey: string) returns (data: Json)
      ensures data == JObject(map[])
    {
      data := JObject(map[]);
    }
  }

  // `prepare_for_redis_hash`.

  /** The text a value becomes in the hash: JSON for a list or a dict, `str` otherwise. */
  function HashValue(codec: Codec, v: Json): (s: string)
    ensures v.JInt? ==> ParseInt(s) == v.i
  {
    match v
    case JList(_) => codec.encode(v)
    case JObject(_) => codec.encode(v)
    case JNull => "None"
    case JBool(b) => BoolToString(b)
    case JInt(i) => IntRoundTrip(i); IntToString(i)
    case JStr(s) => s
  }

  /** Every key of the input, and no other, mapped to the text of its value. */
  method PrepareForRedisHash(codec: Codec, data: map<string, Json>) returns (redisData: map<string, string>)
    ensures redisData.Keys == data.Keys
    ensures forall k :: k in data ==> redisData[k] == HashValue(codec, data[k])
  {
    redisData := map[];
    var rest := data.Keys;
    while rest != {}
      invariant rest <= data.Keys
      invariant redisData.Keys == data.Keys - rest
      invariant forall k :: k in redisData ==> redisData[k] == HashValue(codec, data[k])
      decreases |rest|
    {
      var key :| key in rest;
      var value := data[key];
      var text: string;
      if value.JList? || value.JObject? {
        text := codec.encode(value);
      } else {
        match value {
          case JNull => text := "None";
          case JBool(b) => text := BoolToString(b);
          case JInt(i) => text := IntToString(i);
          case JStr(str) => text := str;
        }
      }
      redisData := redisData[key := text];
      rest := rest - {key};
    }
  }

  /**
   * What the hash text keeps of a value: a list or a dict decodes back to it,
   * an integer reads back as itself, a string is itself, `None` and the
   * booleans are their Python spellings.
   */
  lemma HashValueReadsBack(codec: Codec, v: Json)
    requires Lawful(codec)
    ensures (v.JList? || v.JObject?) ==> codec.decode(HashValue(codec, v)) == Some(v)
    ensures v.JInt? ==> ParseInt(HashValue(codec, v)) == v.i
    ensures v.JStr? ==> HashValue(codec, v) == v.s
    ensures v.JBool? ==> HashValue(codec, v) == (if v.b then "True" else "False")
    ensures v.JNull? ==> HashValue(codec, v) == "None"
  {
    if v.JInt? {
      IntRoundTrip(v.i);
    }
  }
}
