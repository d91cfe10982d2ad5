/**
 * The Food model (models/Food.php): the row format of the foods table, the
 * conversion of a row to the page format, the lookups by name and the expiring
 * cache in front of `getFoodByName`.
 *
 * The foods table is an in-memory sequence of rows in table order; SQL
 * execution itself is not part of this model.
 */
module FoodModel {
  import opened Wrappers
  import opened Text
  import opened Config
  import opened Lists
  import opened Classify

  /** A row of the foods table: the menu name and the value of each column. */
  datatype FoodRow = FoodRow(menu: string, columns: map<string, Option<Decimal>>)

  /** A food in the page format: 'Menu' plus one entry per nutrient name. */
  datatype Food = Food(menu: string, nutrients: map<string, Option<Decimal>>)

  /** `$food[$column]`; a column the row lacks reads as null. */
  function Column(row: FoodRow, column: string): Option<Decimal> {
    if column in row.columns then row.columns[column] else None
  }

  /** `$food[$nutrient] ?? null` / `food[nutrient]`: a missing nutrient reads as null. */
  function NutrientValue(food: Food, nutrient: string): Option<Decimal> {
    if nutrient in food.nutrients then food.nutrients[nutrient] else None
  }

  lemma NutrientKeysDistinct()
    ensures forall i, j :: 0 <= i < j < |NutrientKeys| ==> NutrientKeys[i] != NutrientKeys[j]
  {
  }

  /** The first `n` nutrients copied from their columns, in declaration order. */
  function Filled(row: FoodRow, n: nat): map<string, Option<Decimal>>
    requires n <= |NutrientKeys|
  {
    if n == 0 then map[]
    else Filled(row, n - 1)[NutrientKeys[n - 1] := Column(row, NutrientColumns[n - 1])]
  }

  /** After `n` steps the map holds exactly the first `n` nutrient names... */
  lemma {:induction false} FilledKeys(row: FoodRow, n: nat)
    requires n <= |NutrientKeys|
    ensures Filled(row, n).Keys == set i | 0 <= i < n :: NutrientKeys[i]
  {
    if n > 0 {
      FilledKeys(row, n - 1);
      var before := set i | 0 <= i < n - 1 :: NutrientKeys[i];
      var after := set i | 0 <= i < n :: NutrientKeys[i];
      assert after == before + {NutrientKeys[n - 1]} by {
        forall x | x in after ensures x in before + {NutrientKeys[n - 1]} {
          var i :| 0 <= i < n && x == NutrientKeys[i];
          if i < n - 1 {
            assert x in before;
          }
        }
      }
    }
  }

  /** ... each with its column's value. */
  lemma {:induction false} FilledValues(row: FoodRow, n: nat)
    requires n <= |NutrientKeys|
    ensures forall i :: 0 <= i < n ==> NutrientKeys[i] in Filled(row, n) && Filled(row, n)[NutrientKeys[i]] == Column(row, NutrientColumns[i])
  {
    if n > 0 {
      FilledValues(row, n - 1);
      NutrientKeysDistinct();
      forall i | 0 <= i < n
        ensures NutrientKeys[i] in Filled(row, n) && Filled(row, n)[NutrientKeys[i]] == Column(row, NutrientColumns[i])
      {
        if i < n - 1 {
          assert NutrientKeys[i] != NutrientKeys[n - 1];
        }
      }
    }
  }

  /**
   * `formatFoodData` as a value: 'Menu' is the row's menu and the nutrients are
   * exactly the 21 names of `$nutrient_columns`, each holding its column's value.
   */
  function FormattedFood(row: FoodRow): (food: Food)
    ensures food.menu == row.menu
    ensures food.nutrients.Keys == set i | 0 <= i < |NutrientKeys| :: NutrientKeys[i]
    ensures forall i :: 0 <= i < |NutrientKeys| ==> food.nutrients[NutrientKeys[i]] == Column(row, NutrientColumns[i])
  {
    FilledKeys(row, |NutrientKeys|);
    FilledValues(row, |NutrientKeys|);
    Food(row.menu, Filled(row, |NutrientKeys|))
  }

  /** `formatFoodData($food)`: the loop over `$nutrient_columns` fills the page-format array. */
  method FormatFoodData(row: FoodRow) returns (food: Food)
    ensures food == FormattedFood(row)
  {
    var nutrients: map<string, Option<Decimal>> := map[];
    for k := 0 to |NutrientKeys|
      invariant nutrients == Filled(row, k)
    {
      nutrients := nutrients[NutrientKeys[k] := Column(row, NutrientColumns[k])];
    }
    food := Food(row.menu, nutrients);
  }

  /** `WHERE LOWER(menu) = LOWER(?) LIMIT 1` over the table in table order. */
  function SelectByMenu(rows: seq<FoodRow>, menu: string): (r: Option<FoodRow>)
    ensures r.Some? ==> r.value in rows && Lower(r.value.menu) == Lower(menu)
    ensures r.None? <==> forall j :: 0 <= j < |rows| ==> Lower(rows[j].menu) != Lower(menu)
  {
    match FindFirst(rows, (row: FoodRow) => Lower(row.menu) == Lower(menu))
    case None => None
    case Some(i) => Some(rows[i])
  }

  /** What `getFoodByName` returns when it has to ask the database. */
  function LookupFood(rows: seq<FoodRow>, menu: string): (r: Option<Food>)
    ensures r.Some? <==> SelectByMenu(rows, menu).Some?
    ensures r.Some? ==> Lower(r.value.menu) == Lower(menu)
  {
    match SelectByMenu(rows, menu)
    case None => None
    case Some(row) => Some(FormattedFood(row))
  }

  // ---------------------------------------------------------------------------
  // getFoodsByNames

  /** `str_repeat('?,', n - 1) . '?'`, the IN list of `n` names. */
  function Placeholders(n: nat): (r: string)
    requires n >= 1
    ensures |r| == 2 * n - 1
  {
    Repeat("?,", n - 1) + "?"
  }

  /** The IN list is `n` question marks separated by commas. */
  lemma {:induction false} PlaceholdersList(n: nat)
    requires n >= 1
    ensures Placeholders(n) == Join(seq(n, _ => "?"), ",")
  {
    if n > 1 {
      PlaceholdersList(n - 1);
      assert seq(n, _ => "?")[1..] == seq(n - 1, _ => "?");
      assert Repeat("?,", n - 1) + "?" == "?," + (Repeat("?,", n - 2) + "?");
    }
  }

  /** `array_map('strtolower', $names)`. */
  function LowerAll(names: seq<string>): (r: seq<string>)
    ensures |r| == |names|
    ensures forall i :: 0 <= i < |names| ==> r[i] == Lower(names[i])
  {
    seq(|names|, i requires 0 <= i < |names| => Lower(names[i]))
  }

  /** The rows whose lower-cased menu is in `lowered`, in table order. */
  function SelectIn(rows: seq<FoodRow>, lowered: seq<string>): (r: seq<FoodRow>)
    ensures |r| <= |rows|
    ensures forall j :: 0 <= j < |r| ==> r[j] in rows && Lower(r[j].menu) in lowered
    ensures forall j :: 0 <= j < |rows| && Lower(rows[j].menu) in lowered ==> rows[j] in r
  {
    if rows == [] then []
    else if Lower(rows[0].menu) in lowered then [rows[0]] + SelectIn(rows[1..], lowered)
    else SelectIn(rows[1..], lowered)
  }

  /** The `WHERE LOWER(menu) IN (...)` test. */
  function MenuIn(lowered: seq<string>): FoodRow -> bool {
    (row: FoodRow) => Lower(row.menu) in lowered
  }

  /** The selection is the table filtered by the IN test: every matching row, in table order, and nothing else. */
  lemma {:induction false} SelectInIsFilter(rows: seq<FoodRow>, lowered: seq<string>)
    ensures SelectIn(rows, lowered) == Filter(rows, MenuIn(lowered))
    decreases |rows|
  {
    if rows != [] {
      var p := MenuIn(lowered);
      var head := [rows[0]];
      SelectInIsFilter(rows[1..], lowered);
      assert Filter(head, p) == if p(rows[0]) then head else [] by {
        assert head[..0] == [];
      }
      FilterConcat(head, rows[1..], p);
      assert head + rows[1..] == rows;
    }
  }

  /** The page format of a table row that passes the IN test. */
  predicate FromTable(food: Food, rows: seq<FoodRow>, lowered: seq<string>) {
    exists k :: 0 <= k < |rows| && food == FormattedFood(rows[k]) && Lower(rows[k].menu) in lowered
  }

  /**
   * `getFoodsByNames($names)`: [] for an empty list; otherwise the formatted rows
   * whose lower-cased menu equals one of the lower-cased names.
   */
  function FoodsByNames(rows: seq<FoodRow>, names: seq<string>): (r: seq<Food>)
    ensures names == [] ==> r == []
    ensures |r| <= |rows|
    ensures forall j :: 0 <= j < |r| ==> Lower(r[j].menu) in LowerAll(names)
    ensures forall j :: 0 <= j < |r| ==> FromTable(r[j], rows, LowerAll(names))
  {
    if names == [] then []
    else
      var selected := SelectIn(rows, LowerAll(names));
      var foods := seq(|selected|, j requires 0 <= j < |selected| => FormattedFood(selected[j]));
      assert forall j :: 0 <= j < |foods| ==> FromTable(foods[j], rows, LowerAll(names)) by {
        forall j | 0 <= j < |foods|
          ensures FromTable(foods[j], rows, LowerAll(names))
        {
          assert selected[j] in rows;
        }
      }
      foods
  }

  /**
   * For a non-empty list the answer is, position by position, the formatted
   * rows of the table filtered by the IN test: table order, each matching
   * row once.
   */
  lemma FoodsByNamesInTableOrder(rows: seq<FoodRow>, names: seq<string>)
    requires names != []
    ensures |FoodsByNames(rows, names)| == |Filter(rows, MenuIn(LowerAll(names)))|
    ensures forall j :: 0 <= j < |FoodsByNames(rows, names)| ==>
      FoodsByNames(rows, names)[j] == FormattedFood(Filter(rows, MenuIn(LowerAll(names)))[j])
  {
    SelectInIsFilter(rows, LowerAll(names));
  }

  /** Every stored food whose name matches one requested, ignoring ASCII case, is returned. */
  lemma FoodsByNamesComplete(rows: seq<FoodRow>, names: seq<string>, j: nat, i: nat)
    requires j < |rows| && i < |names|
    requires Lower(rows[j].menu) == Lower(names[i])
    ensures exists k :: 0 <= k < |FoodsByNames(rows, names)| && FoodsByNames(rows, names)[k] == FormattedFood(rows[j])
  {
    var lowered := LowerAll(names);
    assert lowered[i] == Lower(rows[j].menu);
    var selected := SelectIn(rows, lowered);
    assert rows[j] in selected;
    var k :| 0 <= k < |selected| && selected[k] == rows[j];
    assert FoodsByNames(rows, names)[k] == FormattedFood(rows[j]);
  }

  // ---------------------------------------------------------------------------
  // The expiring cache and getFoodByName.

  datatype CacheEntry = CacheEntry(data: Food, expires: int)

  /** The logical key `getFoodByName` caches a menu name under. */
  function CacheKey(menu: string): string {
    "food_" + menu
  }

  lemma CacheKeyInjective(a: string, b: string)
    requires CacheKey(a) == CacheKey(b)
    ensures a == b
  {
    assert a == CacheKey(a)[5..];
    assert b == CacheKey(b)[5..];
  }

  /** What a read of `key` at time `now` returns: the data of an entry that expires later than `now`. */
  function CacheHit(cache: map<string, CacheEntry>, key: string, now: int): (r: Option<Food>)
    ensures r.Some? <==> key in cache && cache[key].expires > now
    ensures r.Some? ==> r.value == cache[key].data
  {
    if key in cache && cache[key].expires > now then Some(cache[key].data) else None
  }

  /** The cache after a read of `key` at `now`: an expired entry is deleted, everything else stays. */
  function CacheAfterRead(cache: map<string, CacheEntry>, key: string, now: int): (r: map<string, CacheEntry>)
    ensures r.Keys <= cache.Keys
    ensures forall k :: k in r ==> r[k] == cache[k]
    ensures forall k :: k in cache && k != key ==> k in r
    ensures key in r <==> key in cache && cache[key].expires > now
  {
    if key in cache && cache[key].expires <= now then cache - {key} else cache
  }

  /** A value stored at `now` is read back at any instant before `now + CACHE_DURATION`. */
  lemma StoredThenRead(cache: map<string, CacheEntry>, key: string, data: Food, now: int, later: int)
    requires now <= later < now + CacheDuration
    ensures CacheHit(cache[key := CacheEntry(data, now + CacheDuration)], key, later) == Some(data)
  {
  }

  /** ... and is gone once `now + CACHE_DURATION` is reached. */
  lemma StoredThenExpired(cache: map<string, CacheEntry>, key: string, data: Food, now: int, later: int)
    requires later >= now + CacheDuration
    ensures CacheHit(cache[key := CacheEntry(data, now + CacheDuration)], key, later).None?
    ensures key !in CacheAfterRead(cache[key := CacheEntry(data, now + CacheDuration)], key, later)
  {
  }

  /**
   * The Food model object: the foods table (read only here), whether caching is
   * enabled (CACHE_ENABLED) and the cache entries by logical key.
   */
  class FoodStore {
    const rows: seq<FoodRow>
    const cacheEnabled: bool
    var cache: map<string, CacheEntry>

    /** Every cached food is what the database lookup of its name gives. */
    ghost predicate Coherent()
      reads this
    {
      forall menu :: CacheKey(menu) in cache ==> LookupFood(rows, menu) == Some(cache[CacheKey(menu)].data)
    }

    constructor(rows: seq<FoodRow>, cacheEnabled: bool)
      ensures this.rows == rows && this.cacheEnabled == cacheEnabled
      ensures cache == map[] && Coherent()
    {
      this.rows := rows;
      this.cacheEnabled := cacheEnabled;
      cache := map[];
    }

    /** `getCache($key)`: a miss when caching is disabled; otherwise a hit only on an unexpired entry, and an expired entry is deleted. */
    method GetCache(key: string, now: int) returns (r: Option<Food>)
      modifies this
      ensures !cacheEnabled ==> r.None? && cache == old(cache)
      ensures cacheEnabled ==> r == CacheHit(old(cache), key, now) && cache == CacheAfterRead(old(cache), key, now)
    {
      if !cacheEnabled {
        return None;
      }
      if key in cache {
        if cache[key].expires > now {
          return Some(cache[key].data);
        }
        cache := cache - {key};
      }
      r := None;
    }

    /** `setCache($key, $data)`: stores the data to expire CACHE_DURATION seconds from now (nothing when disabled). */
    method SetCache(key: string, data: Food, now: int)
      modifies this
      ensures cache == if cacheEnabled then old(cache)[key := CacheEntry(data, now + CacheDuration)] else old(cache)
    {
      if cacheEnabled {
        cache := cache[key := CacheEntry(data, now + CacheDuration)];
      }
    }

    /** `clearCache()`: removes every entry. */
    method ClearCache()
      modifies this
      ensures cache == map[]
    {
      cache := map[];
    }

    /**
     * `getFoodByName($menu)`: a cache hit is returned as is; otherwise the
     * database is asked and only a food that was found is cached. With a
     * coherent cache the answer is always the database's.
     */
    method GetFoodByName(menu: string, now: int) returns (r: Option<Food>)
      requires Coherent()
      modifies this
      ensures Coherent()
      ensures r == LookupFood(rows, menu)
      ensures r.None? ==> cache.Keys <= old(cache).Keys
      ensures r.Some? && cacheEnabled ==> CacheHit(cache, CacheKey(menu), now) == r
      ensures !cacheEnabled ==> cache == old(cache)
      ensures cacheEnabled && (CacheHit(old(cache), CacheKey(menu), now).Some? || r.None?) ==>
        cache == CacheAfterRead(old(cache), CacheKey(menu), now)
      ensures cacheEnabled && CacheHit(old(cache), CacheKey(menu), now).None? && r.Some? ==>
        cache == CacheAfterRead(old(cache), CacheKey(menu), now)[CacheKey(menu) := CacheEntry(r.value, now + CacheDuration)]
    {
      var key := CacheKey(menu);
      var cached := GetCache(key, now);
      if cached.Some? {
        return cached;
      }
      r := LookupFood(rows, menu);
      if r.Some? {
        SetCache(key, r.value, now);
        forall m | CacheKey(m) in cache
          ensures LookupFood(rows, m) == Some(cache[CacheKey(m)].data)
        {
          if CacheKey(m) == key {
            CacheKeyInjective(m, menu);
          }
        }
      }
    }
  }
}
