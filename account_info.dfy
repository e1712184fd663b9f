/**
 * Display metadata of a credential record set (`parse_account_info`):
 * the platform and nation from the auth-member blob, the creation time,
 * and the age of the access token bucketed into minutes, hours or days.
 */
module AccountInfo {
  import opened Wrappers
  import opened Text
  import opened OrderedDict
  import opened Credentials

  const FIREBASE_PREFIX: string := "FIREBASE_"

  /**
   * The fields read from the decoded auth-member JSON: `reg_path` and
   * `reg_nation` (`""` when absent) and `crt_dt` in milliseconds (`0` when absent).
   */
  datatype AuthMember = AuthMember(regPath: string, regNation: string, crtDt: int)

  /**
   * What the account list shows. `createdAtMs` is the `crt_dt` the date label
   * is formatted from; `None` stands for the empty label.
   */
  datatype Info = Info(platform: string, createdAtMs: Option<int>, tokenTime: string, regNation: string)

  /** The platform label: after the first `_` of a `FIREBASE_` path, the path itself otherwise. */
  function PlatformOf(regPath: string): (platform: string)
    ensures StartsWith(regPath, FIREBASE_PREFIX) ==> platform == regPath[|FIREBASE_PREFIX|..]
    ensures !StartsWith(regPath, FIREBASE_PREFIX) ==> platform == regPath
  {
    if regPath == "" then ""
    else if StartsWith(regPath, FIREBASE_PREFIX) then
      assert regPath[..9] == FIREBASE_PREFIX;
      assert regPath[8] == '_';
      assert forall j :: 0 <= j < 8 ==> regPath[j] == FIREBASE_PREFIX[j] != '_';
      AfterFirst(regPath, '_')
    else regPath
  }

  /** The age of a token, as the three label shapes show it. */
  datatype TokenAge = MinutesAgo(minutes: nat) | HoursAgo(hours: nat) | DaysAgo(days: nat, hours: nat)

  /**
   * Whole seconds between issue and now, as `int(delta.total_seconds())`
   * gives them: the millisecond difference truncated toward zero.
   */
  function ElapsedSeconds(nowMs: int, issuedMs: int): (t: int)
    ensures nowMs >= issuedMs ==> 0 <= t * 1000 <= nowMs - issuedMs < t * 1000 + 1000
    ensures nowMs < issuedMs ==> t * 1000 - 1000 < nowMs - issuedMs <= t * 1000 <= 0
  {
    var delta := nowMs - issuedMs;
    if delta >= 0 then delta / 1000 else -((-delta) / 1000)
  }

  /**
   * The bucket of an age of `t` seconds, with Python's flooring `//` and `%`:
   * under an hour in minutes, under a day in hours, otherwise days and hours.
   */
  function AgeBucket(t: int): (age: TokenAge)
    ensures t < 3600 ==> age.MinutesAgo? && age.minutes < 60
    ensures 0 <= t < 3600 ==> age.minutes * 60 <= t < age.minutes * 60 + 60
    ensures 3600 <= t < 86400 ==> age.HoursAgo? && 1 <= age.hours <= 23
    ensures 3600 <= t < 86400 ==> age.hours * 3600 <= t < age.hours * 3600 + 3600
    ensures t >= 86400 ==> age.DaysAgo? && age.days >= 1 && age.hours < 24
    ensures t >= 86400 ==> age.days * 86400 + age.hours * 3600 <= t < age.days * 86400 + age.hours * 3600 + 3600
  {
    var days := t / 86400;
    var hours := (t % 86400) / 3600;
    var minutes := (t % 3600) / 60;
    if t < 3600 then MinutesAgo(minutes)
    else if t < 86400 then HoursAgo(hours)
    else DaysAgo(days, hours)
  }

  /**
   * A timestamp less than an hour in the future is not special-cased: the
   * flooring modulo makes it read as that many minutes short of an hour ago.
   */
  lemma FutureTokenWraps(t: int)
    requires -3600 <= t < 0
    ensures AgeBucket(t) == MinutesAgo((t + 3600) / 60)
  {
  }

  /** The word after the number of a minutes or hours label. */
  function UnitSuffix(hours: bool, lang: string): string {
    if lang == "zh" then (if hours then "小时前" else "分钟前")
    else (if hours then "h ago" else "m ago")
  }

  /** The text between the days and the hours of a days label. */
  function DaySeparator(lang: string): string {
    if lang == "zh" then "天" else "d "
  }

  /**
   * The rendered label in the chosen language (`zh` or anything else for
   * English): the leading number of the bucket, then its unit; a days label
   * is the days, the day separator, then an hours label.
   */
  function AgeLabel(age: TokenAge, lang: string): (shown: string)
    ensures |shown| > 0
    ensures age.MinutesAgo? ==> StartsWith(shown, DecimalOf(age.minutes))
    ensures age.HoursAgo? ==> StartsWith(shown, DecimalOf(age.hours))
    ensures age.DaysAgo? ==> StartsWith(shown, DecimalOf(age.days) + DaySeparator(lang))
    ensures EndsWith(shown, UnitSuffix(!age.MinutesAgo?, lang))
  {
    match age
    case MinutesAgo(m) => DecimalOf(m) + UnitSuffix(false, lang)
    case HoursAgo(h) => DecimalOf(h) + UnitSuffix(true, lang)
    case DaysAgo(d, h) => DecimalOf(d) + DaySeparator(lang) + DecimalOf(h) + UnitSuffix(true, lang)
  }

  /** Reading a label back: the age a minutes, hours or days label shows. */
  function ReadAgeLabel(shown: string, lang: string): Option<TokenAge> {
    match ReadNumber(shown)
    case None => None
    case Some((a, rest)) =>
      if rest == UnitSuffix(false, lang) then Some(MinutesAgo(a))
      else if rest == UnitSuffix(true, lang) then Some(HoursAgo(a))
      else
        var sep := DaySeparator(lang);
        if StartsWith(rest, sep) then
          match ReadNumber(rest[|sep|..])
          case Some((b, tail)) => if tail == UnitSuffix(true, lang) then Some(DaysAgo(a, b)) else None
          case None => None
        else None
  }

  /** The two unit words differ in their first character, and neither starts like the day separator. */
  lemma UnitsDiffer(lang: string)
    ensures UnitSuffix(true, lang)[0] != UnitSuffix(false, lang)[0]
    ensures DaySeparator(lang)[0] != UnitSuffix(false, lang)[0]
    ensures DaySeparator(lang)[0] != UnitSuffix(true, lang)[0]
    ensures |UnitSuffix(true, lang)| > 0 && !IsDigit(UnitSuffix(true, lang)[0])
    ensures |UnitSuffix(false, lang)| > 0 && !IsDigit(UnitSuffix(false, lang)[0])
    ensures |DaySeparator(lang)| > 0 && !IsDigit(DaySeparator(lang)[0])
  {
  }

  /** A days label reads back as its days and hours. */
  lemma {:induction false} DaysLabelReadsBack(d: nat, h: nat, lang: string)
    ensures ReadAgeLabel(AgeLabel(DaysAgo(d, h), lang), lang) == Some(DaysAgo(d, h))
  {
    var sep := DaySeparator(lang);
    var hoursPart := DecimalOf(h) + UnitSuffix(true, lang);
    var rest := sep + hoursPart;
    UnitsDiffer(lang);
    assert AgeLabel(DaysAgo(d, h), lang) == DecimalOf(d) + rest;
    ReadNumberDecimal(d, rest);
    assert rest[0] == sep[0];
    assert rest != UnitSuffix(false, lang) && rest != UnitSuffix(true, lang);
    assert StartsWith(rest, sep);
    assert rest[|sep|..] == hoursPart;
    ReadNumberDecimal(h, UnitSuffix(true, lang));
  }

  /** Every label reads back as the age it renders: no two ages share a label. */
  lemma {:induction false} AgeLabelReadsBack(age: TokenAge, lang: string)
    ensures ReadAgeLabel(AgeLabel(age, lang), lang) == Some(age)
  {
    UnitsDiffer(lang);
    match age
    case MinutesAgo(m) =>
      ReadNumberDecimal(m, UnitSuffix(false, lang));
    case HoursAgo(h) =>
      ReadNumberDecimal(h, UnitSuffix(true, lang));
      assert UnitSuffix(true, lang) != UnitSuffix(false, lang);
    case DaysAgo(d, h) =>
      DaysLabelReadsBack(d, h, lang);
  }

  /** The issue time in field 5 of the first access token, when it has six fields and field 5 is an integer. */
  function IssuedAt(rs: RecordSet): (r: Option<int>)
    ensures r == if FirstData(rs, ACCESS_TOKEN_PATTERN).Some? && |Parts(FirstData(rs, ACCESS_TOKEN_PATTERN).value)| >= 6
                 then ParseInt(Parts(FirstData(rs, ACCESS_TOKEN_PATTERN).value)[5]) else None
  {
    match FirstData(rs, ACCESS_TOKEN_PATTERN)
    case None => None
    case Some(raw) =>
      if raw == "" then None
      else
        var parts := Parts(raw);
        if |parts| >= 6 then ParseInt(parts[5]) else None
  }

  /** The token label: empty unless the first access token has six fields and an integer field 5, else the label of its bucketed age. */
  function TokenTime(rs: RecordSet, nowMs: int, lang: string): (shown: string)
    ensures shown != "" <==> IssuedAt(rs).Some?
    ensures IssuedAt(rs).Some? ==> shown == AgeLabel(AgeBucket(ElapsedSeconds(nowMs, IssuedAt(rs).value)), lang)
    ensures IssuedAt(rs).Some? ==>
      ReadAgeLabel(shown, lang) == Some(AgeBucket(ElapsedSeconds(nowMs, IssuedAt(rs).value)))
  {
    match IssuedAt(rs)
    case None => ""
    case Some(issued) =>
      var age := AgeBucket(ElapsedSeconds(nowMs, issued));
      AgeLabelReadsBack(age, lang);
      AgeLabel(age, lang)
  }

  /** The first auth-member blob, NUL padding stripped, decoded; `None` when absent, empty or undecodable. */
  function AuthDecoded(rs: RecordSet, decode: string -> Option<AuthMember>): (r: Option<AuthMember>)
    ensures FirstKeyIndex(rs, AUTH_MEMBER_PATTERN).None? ==> r.None?
    ensures FirstKeyIndex(rs, AUTH_MEMBER_PATTERN).Some? ==>
      var raw := DataOf(rs[FirstKeyIndex(rs, AUTH_MEMBER_PATTERN).value].1);
      r == if raw == "" then None else decode(StripNul(raw))
  {
    match FirstData(rs, AUTH_MEMBER_PATTERN)
    case None => None
    case Some(raw) => if raw == "" then None else decode(StripNul(raw))
  }

  /**
   * `parse_account_info`: every field starts empty; the auth-member fields
   * stay empty when the blob is missing or does not decode, and the token
   * label is filled independently of them.
   */
  function ParseAccountInfo(rs: RecordSet, decode: string -> Option<AuthMember>, nowMs: int, lang: string): (info: Info)
    ensures AuthDecoded(rs, decode).None? ==> info.platform == "" && info.regNation == "" && info.createdAtMs.None?
    ensures info.tokenTime != "" <==> IssuedAt(rs).Some?
    ensures info.tokenTime == TokenTime(rs, nowMs, lang)
    ensures AuthDecoded(rs, decode).Some? ==>
      var m := AuthDecoded(rs, decode).value;
      && info.platform == PlatformOf(m.regPath)
      && info.regNation == m.regNation
      && info.createdAtMs == (if m.crtDt != 0 then Some(m.crtDt) else None)
    ensures info.platform != "" ==> AuthDecoded(rs, decode).Some? && AuthDecoded(rs, decode).value.regPath != ""
  {
    var tokenTime := TokenTime(rs, nowMs, lang);
    match AuthDecoded(rs, decode)
    case None => Info("", None, tokenTime, "")
    case Some(member) =>
      Info(PlatformOf(member.regPath),
           if member.crtDt != 0 then Some(member.crtDt) else None,
           tokenTime,
           member.regNation)
  }
}
