/**
 * Recognising which saved account the live session belongs to: the scans of
 * `update_current_account_display` and `refresh_token` over the saved
 * accounts in insertion order, comparing identity prefixes.
 */
module Matching {
  import opened Wrappers
  import opened Text
  import opened OrderedDict
  import opened Credentials

  /** Why the live session has no identity: no (or an empty) token, or fewer than four fields. */
  datatype TokenError = NoToken | InvalidToken

  /**
   * The identity prefix of the live session, from its first access-token
   * entry. The token is rejected as missing when absent or empty after NUL
   * stripping, and as invalid when it has fewer than four fields.
   */
  function LiveIdentity(live: RecordSet): (r: Result<string, TokenError>)
    ensures r == Failure(NoToken) <==>
      FirstData(live, ACCESS_TOKEN_PATTERN).None? || StripNul(FirstData(live, ACCESS_TOKEN_PATTERN).value) == ""
    ensures r.Success? <==>
      FirstData(live, ACCESS_TOKEN_PATTERN).Some? && |Parts(FirstData(live, ACCESS_TOKEN_PATTERN).value)| >= 4
    ensures r.Success? ==> IdentityPrefix(FirstData(live, ACCESS_TOKEN_PATTERN).value) == Some(r.value)
  {
    match FirstData(live, ACCESS_TOKEN_PATTERN)
    case None => Failure(NoToken)
    case Some(raw) =>
      if StripNul(raw) == "" then Failure(NoToken)
      else
        match IdentityPrefix(raw)
        case None => Failure(InvalidToken)
        case Some(prefix) => Success(prefix)
  }

  /** Some access-token entry of `rs` has exactly this identity prefix. */
  predicate SavedMatches(rs: RecordSet, prefix: string) {
    exists i :: 0 <= i < |rs| && EntryMatches(rs[i], prefix)
  }

  predicate EntryMatches(entry: (string, Value), prefix: string) {
    StartsWith(entry.0, ACCESS_TOKEN_PATTERN) && IdentityPrefix(DataOf(entry.1)) == Some(prefix)
  }

  /**
   * A saved account the scan stops at: it matches and its name is non-empty
   * (an empty name is falsy in Python, so the scan goes on past it).
   */
  predicate IsMatch(account: (string, RecordSet), prefix: string) {
    account.0 != "" && SavedMatches(account.1, prefix)
  }

  /** The position of the first matching account in insertion order. */
  function FirstMatchIndex(accounts: Dict<string, RecordSet>, prefix: string): (r: Option<nat>)
    ensures r.Some? ==> r.value < |accounts| && IsMatch(accounts[r.value], prefix)
    ensures forall j :: 0 <= j < |accounts| && (r.None? || j < r.value) ==> !IsMatch(accounts[j], prefix)
  {
    if |accounts| == 0 then None
    else if IsMatch(accounts[0], prefix) then Some(0)
    else
      match FirstMatchIndex(accounts[1..], prefix)
      case None => None
      case Some(i) => Some(i + 1)
  }

  /** The name of the first matching account, if any. */
  function FindMatch(accounts: Dict<string, RecordSet>, prefix: string): Option<string> {
    match FirstMatchIndex(accounts, prefix)
    case None => None
    case Some(i) => Some(accounts[i].0)
  }

  /** The scan stops at position `i` when it matches and nothing before it does. */
  lemma FirstMatchAt(accounts: Dict<string, RecordSet>, prefix: string, i: nat)
    requires i < |accounts| && IsMatch(accounts[i], prefix)
    requires forall j :: 0 <= j < i ==> !IsMatch(accounts[j], prefix)
    ensures FindMatch(accounts, prefix) == Some(accounts[i].0)
  {
    var r := FirstMatchIndex(accounts, prefix);
    assert r.Some? && r.value == i;
  }

  /**
   * The inner scan over one saved account's entries: each access-token entry
   * is stripped, split and compared by its first four fields; the scan
   * stops at the first hit.
   */
  method ScanEntries(values: RecordSet, currentPrefix: string) returns (hit: bool)
    ensures hit <==> SavedMatches(values, currentPrefix)
  {
    hit := false;
    var k := 0;
    while k < |values|
      invariant 0 <= k <= |values|
      invariant forall m :: 0 <= m < k ==> !EntryMatches(values[m], currentPrefix)
    {
      var key := values[k].0;
      if StartsWith(key, ACCESS_TOKEN_PATTERN) {
        var savedToken := StripNul(DataOf(values[k].1));
        if savedToken != "" {
          var savedParts := Split(savedToken, SEP);
          if |savedParts| >= 4 {
            var savedPrefix := Join(savedParts[..4], SEP);
            if savedPrefix == currentPrefix {
              assert EntryMatches(values[k], currentPrefix);
              hit := true;
              return;
            }
          }
        } else {
          assert Split(savedToken, SEP) == [""];
        }
      }
      k := k + 1;
    }
  }

  /**
   * The nested scan: for each account in order, scan its access-token
   * entries; stop at the first hit under a non-empty name (a hit under the
   * empty name is falsy and the scan goes on).
   */
  method MatchSavedAccount(accounts: Dict<string, RecordSet>, currentPrefix: string) returns (matched: Option<string>)
    ensures matched == FindMatch(accounts, currentPrefix)
    ensures matched.Some? ==> matched.value != "" && HasKey(accounts, matched.value)
  {
    var i := 0;
    while i < |accounts|
      invariant 0 <= i <= |accounts|
      invariant forall j :: 0 <= j < i ==> !IsMatch(accounts[j], currentPrefix)
    {
      var name := accounts[i].0;
      var hit := ScanEntries(accounts[i].1, currentPrefix);
      if hit && name != "" {
        FirstMatchAt(accounts, currentPrefix, i);
        return Some(name);
      }
      i := i + 1;
    }
    matched := None;
  }

  /** The live record set matches its own identity prefix. */
  lemma LiveMatchesItself(live: RecordSet, prefix: string)
    requires LiveIdentity(live) == Success(prefix)
    ensures SavedMatches(live, prefix)
  {
    var i := FirstKeyIndex(live, ACCESS_TOKEN_PATTERN).value;
    assert EntryMatches(live[i], prefix);
  }

  /**
   * Two live sessions whose first access tokens agree on their first four
   * fields (after NUL stripping; a token refresh changes only what follows,
   * if anything) have the same identity and so match the same account.
   */
  lemma RefreshedSessionSameMatch(live1: RecordSet, live2: RecordSet, t1: string, t2: string, accounts: Dict<string, RecordSet>)
    requires FirstData(live1, ACCESS_TOKEN_PATTERN) == Some(t1)
    requires FirstData(live2, ACCESS_TOKEN_PATTERN) == Some(t2)
    requires |Parts(t1)| >= 4 && |Parts(t2)| >= 4 && Parts(t1)[..4] == Parts(t2)[..4]
    ensures LiveIdentity(live1).Success? && LiveIdentity(live1) == LiveIdentity(live2)
    ensures FindMatch(accounts, LiveIdentity(live1).value) == FindMatch(accounts, LiveIdentity(live2).value)
  {
    var p1 := LiveIdentity(live1).value;
    var p2 := LiveIdentity(live2).value;
    JoinSplit(p1, SEP);
    JoinSplit(p2, SEP);
  }

  /** The case of a refresh written out: the same four fields, then any tail each (further fields, NUL padding). */
  lemma RefreshedTailSameMatch(live1: RecordSet, live2: RecordSet, head: seq<string>, rest1: string, rest2: string, accounts: Dict<string, RecordSet>)
    requires |head| == 4
    requires forall i :: 0 <= i < 4 ==> SEP !in head[i]
    requires FirstData(live1, ACCESS_TOKEN_PATTERN) == Some(Join(head, SEP) + [SEP] + rest1)
    requires FirstData(live2, ACCESS_TOKEN_PATTERN) == Some(Join(head, SEP) + [SEP] + rest2)
    ensures LiveIdentity(live1) == LiveIdentity(live2) == Success(Join(head, SEP))
    ensures FindMatch(accounts, LiveIdentity(live1).value) == FindMatch(accounts, LiveIdentity(live2).value)
  {
    var lead := Join(head, SEP) + [SEP];
    PrefixIgnoresTail(head, rest1);
    PrefixIgnoresTail(head, rest2);
    StripNulAfter(lead, rest1);
    StripNulAfter(lead, rest2);
  }

  /**
   * Accepting a refresh (`accounts[matched] = current_values`) keeps the
   * account recognised: the scan still stops at the same name.
   */
  lemma RefreshKeepsMatch(accounts: Dict<string, RecordSet>, live: RecordSet, prefix: string)
    requires NoDupKeys(accounts)
    requires LiveIdentity(live) == Success(prefix)
    requires FindMatch(accounts, prefix).Some?
    ensures FindMatch(Put(accounts, FindMatch(accounts, prefix).value, live), prefix) == FindMatch(accounts, prefix)
  {
    var i := FirstMatchIndex(accounts, prefix).value;
    var name := accounts[i].0;
    var updated := Put(accounts, name, live);
    PutAt(accounts, name, live, i);
    assert updated == accounts[i := (name, live)];
    LiveMatchesItself(live, prefix);
    assert IsMatch(updated[i], prefix);
    assert forall j :: 0 <= j < i ==> updated[j] == accounts[j];
  }
}
