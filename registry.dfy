/**
 * Resolving registry value names by pattern: `get_registry_keys` (which
 * live name holds each credential), the pattern re-keying of
 * `normalize_account_data`, the target-name choice of
 * `write_registry_values`, and the values `logout_account` writes.
 */
module Registry {
  import opened Wrappers
  import opened Text
  import opened OrderedDict
  import opened Credentials

  /** The position in `patterns` of the first one `name` starts with. */
  function FirstPattern(name: string, patterns: seq<string>): (r: Option<nat>)
    ensures r.Some? ==> r.value < |patterns| && StartsWith(name, patterns[r.value])
    ensures forall j :: 0 <= j < |patterns| && (r.None? || j < r.value) ==> !StartsWith(name, patterns[j])
  {
    if |patterns| == 0 then None
    else if StartsWith(name, patterns[0]) then Some(0)
    else
      match FirstPattern(name, patterns[1..])
      case None => None
      case Some(i) => Some(i + 1)
  }

  /** The credential pattern a value name belongs to, if any. */
  function PatternOf(name: string): Option<string> {
    match FirstPattern(name, TOKEN_KEY_PATTERNS)
    case None => None
    case Some(i) => Some(TOKEN_KEY_PATTERNS[i])
  }

  /** No name starts with both patterns, so a name belongs to the one pattern it starts with. */
  lemma PatternOfStart(name: string, p: string)
    requires p in TOKEN_KEY_PATTERNS && StartsWith(name, p)
    ensures PatternOf(name) == Some(p)
  {
    if p == AUTH_MEMBER_PATTERN {
      assert name[6] == 'u';
      assert ACCESS_TOKEN_PATTERN[6] == 'c';
      assert !StartsWith(name, ACCESS_TOKEN_PATTERN);
    }
  }

  /**
   * Re-keying by pattern, in order: each entry whose name belongs to a
   * pattern is stored under that pattern, later entries overwriting earlier
   * ones; other entries are dropped.
   */
  function ByPattern<V>(entries: seq<(string, V)>): Dict<string, V> {
    if |entries| == 0 then []
    else
      var acc := ByPattern(entries[..|entries| - 1]);
      var last := entries[|entries| - 1];
      match PatternOf(last.0)
      case None => acc
      case Some(p) => Put(acc, p, last.1)
  }

  /** The position of the last entry whose name starts with `p`. */
  function LastIndexWith<V>(entries: seq<(string, V)>, p: string): (r: Option<nat>)
    ensures r.Some? ==> r.value < |entries| && StartsWith(entries[r.value].0, p)
    ensures forall j :: 0 <= j < |entries| && (r.None? || j > r.value) ==> !StartsWith(entries[j].0, p)
  {
    if |entries| == 0 then None
    else if StartsWith(entries[|entries| - 1].0, p) then Some(|entries| - 1)
    else LastIndexWith(entries[..|entries| - 1], p)
  }

  /** The value of the last entry whose name starts with `p`. */
  function LastWith<V>(entries: seq<(string, V)>, p: string): Option<V> {
    match LastIndexWith(entries, p)
    case None => None
    case Some(i) => Some(entries[i].1)
  }

  /** Dropping the last entry: the last match is the same unless the dropped entry matches. */
  lemma LastWithStep<V>(entries: seq<(string, V)>, p: string)
    requires |entries| > 0
    ensures LastWith(entries, p) ==
      if StartsWith(entries[|entries| - 1].0, p) then Some(entries[|entries| - 1].1)
      else LastWith(entries[..|entries| - 1], p)
  {
  }

  /** Re-keying by pattern keeps only the two patterns as keys, once each. */
  lemma {:induction false} ByPatternKeys<V>(entries: seq<(string, V)>)
    ensures NoDupKeys(ByPattern(entries))
    ensures forall i :: 0 <= i < |ByPattern(entries)| ==> ByPattern(entries)[i].0 in TOKEN_KEY_PATTERNS
  {
    if |entries| > 0 {
      var init := entries[..|entries| - 1];
      var last := entries[|entries| - 1];
      var acc := ByPattern(init);
      ByPatternKeys(init);
      if PatternOf(last.0).Some? {
        var p := PatternOf(last.0).value;
        PutGet(acc, p, last.1, p);
        if HasKey(acc, p) {
          var i :| 0 <= i < |acc| && acc[i].0 == p;
          PutAt(acc, p, last.1, i);
        } else {
          PutNew(acc, p, last.1);
        }
      }
    }
  }

  /** Re-keying by pattern maps each pattern to the value of the last entry whose name starts with it. */
  lemma {:induction false} ByPatternLookup<V>(entries: seq<(string, V)>, q: string)
    ensures q in TOKEN_KEY_PATTERNS ==> Get(ByPattern(entries), q) == LastWith(entries, q)
    ensures q !in TOKEN_KEY_PATTERNS ==> !HasKey(ByPattern(entries), q)
  {
    ByPatternKeys(entries);
    if |entries| > 0 && q in TOKEN_KEY_PATTERNS {
      var init := entries[..|entries| - 1];
      var last := entries[|entries| - 1];
      var acc := ByPattern(init);
      ByPatternKeys(init);
      ByPatternLookup(init, q);
      LastWithStep(entries, q);
      if StartsWith(last.0, q) {
        PatternOfStart(last.0, q);
        PutGet(acc, q, last.1, q);
      } else if PatternOf(last.0).Some? {
        PutGet(acc, PatternOf(last.0).value, last.1, q);
      }
    }
  }

  /** Each value name paired with itself: the entries `get_registry_keys` re-keys. */
  function NamePairs(names: seq<string>): (pairs: seq<(string, string)>)
    ensures |pairs| == |names|
    ensures forall i :: 0 <= i < |names| ==> pairs[i] == (names[i], names[i])
  {
    seq(|names|, i requires 0 <= i < |names| => (names[i], names[i]))
  }

  /** In the resolved names, each pattern maps to a name that starts with it. */
  lemma {:induction false} ResolvedNamesStart(names: seq<string>)
    ensures forall i :: 0 <= i < |ByPattern(NamePairs(names))| ==>
      StartsWith(ByPattern(NamePairs(names))[i].1, ByPattern(NamePairs(names))[i].0)
  {
    if |names| > 0 {
      var init := names[..|names| - 1];
      var pairs := NamePairs(names);
      assert pairs[..|pairs| - 1] == NamePairs(init);
      ResolvedNamesStart(init);
      var acc := ByPattern(NamePairs(init));
      var last := names[|names| - 1];
      if PatternOf(last).Some? {
        var p := PatternOf(last).value;
        ByPatternKeys(NamePairs(init));
        if HasKey(acc, p) {
          var i :| 0 <= i < |acc| && acc[i].0 == p;
          PutAt(acc, p, last, i);
        } else {
          PutNew(acc, p, last);
        }
      }
    }
  }

  /**
   * `get_registry_keys`: enumerate the value names in order and record, per
   * pattern, the last name that starts with it. A missing registry key
   * (`None`) yields no names.
   */
  method GetRegistryKeys(enumerated: Option<seq<string>>) returns (keys: Dict<string, string>)
    ensures enumerated.None? ==> keys == []
    ensures enumerated.Some? ==> keys == ByPattern(NamePairs(enumerated.value))
    ensures NoDupKeys(keys)
    ensures forall i :: 0 <= i < |keys| ==> keys[i].0 in TOKEN_KEY_PATTERNS && StartsWith(keys[i].1, keys[i].0)
    ensures forall p :: p in TOKEN_KEY_PATTERNS ==> Get(keys, p) == LastWith(NamePairs(enumerated.GetOr([])), p)
  {
    keys := [];
    if enumerated.None? {
      return;
    }
    var names := enumerated.value;
    var i := 0;
    while i < |names|
      invariant 0 <= i <= |names|
      invariant keys == ByPattern(NamePairs(names)[..i])
    {
      var name := names[i];
      assert NamePairs(names)[..i + 1][..i] == NamePairs(names)[..i];
      var j := 0;
      while j < |TOKEN_KEY_PATTERNS|
        invariant 0 <= j <= |TOKEN_KEY_PATTERNS|
        invariant forall m :: 0 <= m < j ==> !StartsWith(name, TOKEN_KEY_PATTERNS[m])
        invariant keys == ByPattern(NamePairs(names)[..i])
      {
        var pattern := TOKEN_KEY_PATTERNS[j];
        if StartsWith(name, pattern) {
          keys := Put(keys, pattern, name);
          break;
        }
        j := j + 1;
      }
      i := i + 1;
    }
    assert NamePairs(names)[..|names|] == NamePairs(names);
    ResolvedNamesStart(names);
    ByPatternKeys(NamePairs(names));
    ByPatternLookup(NamePairs(names), ACCESS_TOKEN_PATTERN);
    ByPatternLookup(NamePairs(names), AUTH_MEMBER_PATTERN);
  }

  /**
   * `normalize_account_data`: the values re-keyed by pattern, the last entry
   * of each pattern winning; entries of no pattern are dropped.
   */
  method NormalizeAccountData(values: RecordSet) returns (normalized: Dict<string, Value>)
    ensures normalized == ByPattern(values)
    ensures NoDupKeys(normalized)
    ensures forall i :: 0 <= i < |normalized| ==> normalized[i].0 in TOKEN_KEY_PATTERNS
    ensures forall p :: p in TOKEN_KEY_PATTERNS ==> Get(normalized, p) == LastWith(values, p)
  {
    normalized := [];
    var i := 0;
    while i < |values|
      invariant 0 <= i <= |values|
      invariant normalized == ByPattern(values[..i])
    {
      var key := values[i].0;
      assert values[..i + 1][..i] == values[..i];
      var j := 0;
      while j < |TOKEN_KEY_PATTERNS|
        invariant 0 <= j <= |TOKEN_KEY_PATTERNS|
        invariant forall m :: 0 <= m < j ==> !StartsWith(key, TOKEN_KEY_PATTERNS[m])
        invariant normalized == ByPattern(values[..i])
      {
        var pattern := TOKEN_KEY_PATTERNS[j];
        if StartsWith(key, pattern) {
          normalized := Put(normalized, pattern, values[i].1);
          break;
        }
        j := j + 1;
      }
      i := i + 1;
    }
    assert values[..|values|] == values;
    ByPatternKeys(values);
    ByPatternLookup(values, ACCESS_TOKEN_PATTERN);
    ByPatternLookup(values, AUTH_MEMBER_PATTERN);
  }

  /** One `SetValueEx` call: the value name written, its type and its text. */
  datatype RegWrite = RegWrite(name: string, regType: int, data: string)

  /**
   * The value name a saved entry is written under: the live name of its
   * pattern when the registry has one, its own saved name otherwise.
   */
  function TargetName(liveKeys: Dict<string, string>, savedKey: string): (target: string)
    ensures PatternOf(savedKey).None? ==> target == savedKey
    ensures PatternOf(savedKey).Some? ==>
      target == if HasKey(liveKeys, PatternOf(savedKey).value) then Get(liveKeys, PatternOf(savedKey).value).value else savedKey
  {
    match PatternOf(savedKey)
    case None => savedKey
    case Some(p) => if HasKey(liveKeys, p) then Get(liveKeys, p).value else savedKey
  }

  function PlannedWrite(liveKeys: Dict<string, string>, entry: (string, Value)): RegWrite {
    RegWrite(TargetName(liveKeys, entry.0), TypeOf(entry.1), DataOf(entry.1))
  }

  /**
   * `write_registry_values` without the I/O: one write per saved entry, in
   * order, redirected to the live name of its pattern where there is one.
   */
  method PlanRegistryWrite(liveKeys: Dict<string, string>, values: RecordSet) returns (writes: seq<RegWrite>)
    ensures |writes| == |values|
    ensures forall i :: 0 <= i < |values| ==> writes[i] == PlannedWrite(liveKeys, values[i])
  {
    writes := [];
    var i := 0;
    while i < |values|
      invariant 0 <= i <= |values|
      invariant |writes| == i
      invariant forall k :: 0 <= k < i ==> writes[k] == PlannedWrite(liveKeys, values[k])
    {
      var savedKey := values[i].0;
      var targetKey := savedKey;
      var j := 0;
      while j < |TOKEN_KEY_PATTERNS|
        invariant 0 <= j <= |TOKEN_KEY_PATTERNS|
        invariant forall m :: 0 <= m < j ==> !StartsWith(savedKey, TOKEN_KEY_PATTERNS[m])
        invariant targetKey == savedKey
      {
        var pattern := TOKEN_KEY_PATTERNS[j];
        if StartsWith(savedKey, pattern) {
          if HasKey(liveKeys, pattern) {
            targetKey := Get(liveKeys, pattern).value;
          }
          break;
        }
        j := j + 1;
      }
      writes := writes + [RegWrite(targetKey, TypeOf(values[i].1), DataOf(values[i].1))];
      i := i + 1;
    }
  }

  /**
   * A saved credential goes to the live name of its pattern (the last
   * enumerated name starting with it) when there is one, and otherwise
   * keeps its own name; either way it stays under its own pattern.
   */
  lemma TargetFollowsLiveName(names: seq<string>, savedKey: string, p: string)
    requires p in TOKEN_KEY_PATTERNS && StartsWith(savedKey, p)
    ensures TargetName(ByPattern(NamePairs(names)), savedKey) == LastWith(NamePairs(names), p).GetOr(savedKey)
    ensures StartsWith(TargetName(ByPattern(NamePairs(names)), savedKey), p)
  {
    PatternOfStart(savedKey, p);
    ByPatternKeys(NamePairs(names));
    ByPatternLookup(NamePairs(names), p);
  }

  /** `logout_account`: an empty binary value for every live credential name. */
  function LogoutValues(liveKeys: Dict<string, string>): (values: RecordSet)
    ensures |values| == |liveKeys|
  {
    seq(|liveKeys|, i requires 0 <= i < |liveKeys| => (liveKeys[i].1, Tagged(Some(""), Some(REG_BINARY))))
  }

  /** Logging out writes an empty binary value to exactly each live credential name. */
  lemma LogoutClearsLiveNames(names: seq<string>)
    ensures forall i :: 0 <= i < |ByPattern(NamePairs(names))| ==>
      PlannedWrite(ByPattern(NamePairs(names)), LogoutValues(ByPattern(NamePairs(names)))[i])
        == RegWrite(ByPattern(NamePairs(names))[i].1, REG_BINARY, "")
  {
    var live := ByPattern(NamePairs(names));
    ResolvedNamesStart(names);
    ByPatternKeys(NamePairs(names));
    forall i | 0 <= i < |live|
      ensures PlannedWrite(live, LogoutValues(live)[i]) == RegWrite(live[i].1, REG_BINARY, "")
    {
      PatternOfStart(live[i].1, live[i].0);
      GetAt(live, i);
    }
  }
}
