/**
 * The credential values the game keeps under its registry key, and the pure
 * computations on the access token: the identity prefix used to recognise a
 * session across token refreshes, and the masking of the credential id.
 */
module Credentials {
  import opened Wrappers
  import opened Text
  import opened OrderedDict

  /** Value-name prefixes of the access token and of the auth-member blob. */
  const ACCESS_TOKEN_PATTERN: string := "neon_access_token_h"
  const AUTH_MEMBER_PATTERN: string := "neon_auth_member_h"
  const TOKEN_KEY_PATTERNS: seq<string> := [ACCESS_TOKEN_PATTERN, AUTH_MEMBER_PATTERN]

  /** `winreg.REG_BINARY`. */
  const REG_BINARY: int := 3

  /** The separator of the access-token fields. */
  const SEP: char := '|'

  /**
   * One saved or live registry value: either a bare string, or an object
   * `{"data": ..., "type": ...}` whose fields may be missing.
   */
  datatype Value = Raw(text: string) | Tagged(data: Option<string>, regType: Option<int>)

  /** Registry value name to value, in enumeration (or saved) order. */
  type RecordSet = Dict<string, Value>

  /** `value_data.get('data', '')` for an object, the string itself otherwise. */
  function DataOf(v: Value): string {
    match v
    case Raw(s) => s
    case Tagged(d, _) => d.GetOr("")
  }

  /** `value_data.get('type', REG_BINARY)` for an object, `REG_BINARY` otherwise. */
  function TypeOf(v: Value): int {
    match v
    case Raw(_) => REG_BINARY
    case Tagged(_, t) => t.GetOr(REG_BINARY)
  }

  /** The position of the first entry whose name starts with `pattern` (the `for ... break` scans). */
  function FirstKeyIndex(rs: RecordSet, pattern: string): (r: Option<nat>)
    ensures r.Some? ==> r.value < |rs| && StartsWith(rs[r.value].0, pattern)
    ensures forall j :: 0 <= j < |rs| && (r.None? || j < r.value) ==> !StartsWith(rs[j].0, pattern)
  {
    if |rs| == 0 then None
    else if StartsWith(rs[0].0, pattern) then Some(0)
    else
      match FirstKeyIndex(rs[1..], pattern)
      case None => None
      case Some(i) => Some(i + 1)
  }

  /** The data of the first entry whose name starts with `pattern`; later matches are ignored. */
  function FirstData(rs: RecordSet, pattern: string): (r: Option<string>)
    ensures r.Some? <==> exists i :: 0 <= i < |rs| && StartsWith(rs[i].0, pattern)
    ensures r.Some? ==> r.value == DataOf(rs[FirstKeyIndex(rs, pattern).value].1)
  {
    match FirstKeyIndex(rs, pattern)
    case None => None
    case Some(i) => Some(DataOf(rs[i].1))
  }

  /** The `|`-separated fields of a token once its NUL padding is gone. */
  function Parts(raw: string): seq<string> {
    Split(StripNul(raw), SEP)
  }

  /**
   * The identity prefix: the first four fields joined again with `|`.
   * A token with fewer than four fields has none. The prefix splits back
   * into exactly those four fields, so two tokens share a prefix only when
   * their first four fields agree.
   */
  function IdentityPrefix(raw: string): (r: Option<string>)
    ensures r.Some? <==> |Parts(raw)| >= 4
    ensures r.Some? ==> Split(r.value, SEP) == Parts(raw)[..4]
  {
    var parts := Parts(raw);
    if |parts| < 4 then None
    else
      SplitJoin(parts[..4], SEP);
      Some(Join(parts[..4], SEP))
  }

  /**
   * A refreshed token keeps its identity: whatever follows the fourth field,
   * NUL padding included, the prefix is the first four fields joined.
   */
  lemma PrefixIgnoresTail(head: seq<string>, rest: string)
    requires |head| == 4
    requires forall i :: 0 <= i < 4 ==> SEP !in head[i]
    ensures IdentityPrefix(Join(head, SEP) + [SEP] + rest) == Some(Join(head, SEP))
  {
    var lead := Join(head, SEP) + [SEP];
    StripNulAfter(lead, rest);
    SplitJoinThen(head, StripNul(rest), SEP);
    assert Parts(lead + rest)[..4] == head;
  }

  /** The credential id: the first field of the stripped token. */
  function TokenId(raw: string): string {
    Parts(raw)[0]
  }

  /** An id longer than six characters keeps its first four and last two around `***`. */
  function MaskId(id: string): (r: string)
    ensures |r| == if |id| > 6 then 9 else |id|
    ensures |id| <= 6 ==> r == id
    ensures |id| > 6 ==> r[..4] == id[..4] && r[4..7] == "***" && r[7..] == id[|id| - 2..]
  {
    if |id| > 6 then id[..4] + "***" + id[|id| - 2..] else id
  }

  /** Masking reveals nothing of the middle: ids that agree on their ends mask alike. */
  lemma MaskHidesMiddle(a: string, b: string)
    requires |a| > 6 && |b| > 6
    requires a[..4] == b[..4] && a[|a| - 2..] == b[|b| - 2..]
    ensures MaskId(a) == MaskId(b)
    ensures MaskId(a)[4..7] == "***"
  {
  }

  lemma MaskIdAvoids(id: string, c: char)
    requires c != '*' && c !in id
    ensures c !in MaskId(id)
  {
    if |id| > 6 {
      var r := MaskId(id);
      forall i | 0 <= i < |r| ensures r[i] != c {
        if i < 4 { assert r[i] == id[i]; }
        else if i >= 7 { assert r[i] == id[|id| - 9 + i]; }
        else { assert r[i] == '*'; }
      }
    }
  }

  /** An access-token entry whose credential id is non-empty. */
  predicate HasTokenId(entry: (string, Value)) {
    StartsWith(entry.0, ACCESS_TOKEN_PATTERN) && TokenId(DataOf(entry.1)) != ""
  }

  /** The position of the first access-token entry with a non-empty id. */
  function FirstIdIndex(rs: RecordSet): (r: Option<nat>)
    ensures r.Some? ==> r.value < |rs| && HasTokenId(rs[r.value])
    ensures forall j :: 0 <= j < |rs| && (r.None? || j < r.value) ==> !HasTokenId(rs[j])
  {
    if |rs| == 0 then None
    else if HasTokenId(rs[0]) then Some(0)
    else
      match FirstIdIndex(rs[1..])
      case None => None
      case Some(i) => Some(i + 1)
  }

  /**
   * `get_masked_token_id`: the masked id of the first access-token entry
   * whose id is non-empty; `""` when there is none.
   */
  function MaskedTokenId(rs: RecordSet): (r: string)
    ensures |r| <= 9
    ensures r == match FirstIdIndex(rs)
                 case None => ""
                 case Some(i) => MaskId(TokenId(DataOf(rs[i].1)))
    ensures r == "" <==> forall i :: 0 <= i < |rs| && StartsWith(rs[i].0, ACCESS_TOKEN_PATTERN) ==> TokenId(DataOf(rs[i].1)) == ""
  {
    if |rs| == 0 then ""
    else if StartsWith(rs[0].0, ACCESS_TOKEN_PATTERN) && TokenId(DataOf(rs[0].1)) != "" then
      MaskId(TokenId(DataOf(rs[0].1)))
    else
      var r := MaskedTokenId(rs[1..]);
      assert forall i :: 1 <= i < |rs| ==> rs[i] == rs[1..][i - 1];
      r
  }

  /** `mask_prefix`: masks the first field of a prefix and keeps the rest as it is. */
  function MaskPrefix(prefix: string): string {
    var parts := Split(prefix, SEP);
    if parts[0] != "" then
      Join(if |parts[0]| > 6 then parts[0 := MaskId(parts[0])] else parts, SEP)
    else prefix
  }

  /** Masking a prefix keeps the number of fields and every field but the first. */
  lemma MaskPrefixFields(prefix: string)
    ensures Split(MaskPrefix(prefix), SEP) == Split(prefix, SEP)[0 := MaskId(Split(prefix, SEP)[0])]
  {
    var parts := Split(prefix, SEP);
    JoinSplit(prefix, SEP);
    if parts[0] != "" && |parts[0]| > 6 {
      MaskIdAvoids(parts[0], SEP);
      SplitJoin(parts[0 := MaskId(parts[0])], SEP);
    } else {
      assert parts[0 := MaskId(parts[0])] == parts;
    }
  }
}
