# BrownDust II account switcher: account identity and store, in Dafny

This project models the account-identity core of the BrownDust II account
switcher (`AccountSwitcher` in `browndust2_account_switcher.py`). The switcher
saves the game's login credentials under user-chosen names in `accounts.json`.
It recognises the current login and writes a saved login back to the game's
registry key. The model covers:

- **Credential values** (`Credentials`): a registry value is a bare string or a
  `{"data", "type"}` object. The access token is NUL-padded and its fields are
  separated by `|`. Its *identity prefix* is its first four fields, joined again
  with `|`. The *credential id* is its first field, and it is masked as
  `abcd***yz` for display.
- **Account info** (`AccountInfo`): the platform label derived from `reg_path`,
  the nation, the creation time, and the token age label. The age is bucketed
  into minutes, hours, or days and hours, in Chinese or English.
- **Matching** (`Matching`): a live session is recognised as the first saved
  account, in insertion order, whose access-token entry has the same identity
  prefix.
- **Registry name resolution** (`Registry`): which live value name holds each
  credential pattern (`get_registry_keys`), and re-keying by pattern
  (`normalize_account_data`). It also covers the target name and type of every
  value `write_registry_values` writes, and the values `logout_account` writes.
- **The store** (`Store`): the layout of `accounts.json` on load and save. The
  start-up language comes from the saved config. `AccountSwitcher` is a class
  whose methods update `accounts`, `config` and `lang` in place, then save the
  whole file: save, overwrite, rename, delete, refresh token, switch language.
  It also has the registry-writing actions, load account and log out, and the
  current-login label.

Python dictionaries are insertion-ordered, so a dictionary is a sequence of
key/value pairs (`OrderedDict`):
- assignment replaces a value in place or appends a new one;
- `del` and `pop` keep the order of the rest;
- a rename (`d[new] = d.pop(old)`) moves the entry to the end.

Registry and file I/O are parameters. The enumerated value names are
`Option<seq<string>>`, where `None` means the registry key is missing. The live
values are a `RecordSet`, and the file is a `StoreFile`. The JSON decoder for the
auth-member blob, the clock (`nowMs`), the available translations and the
Windows UI language are parameters too. The registry writes are returned as a
plan: a sequence of `RegWrite` values.

## Model

| member | source | states |
|---|---|---|
| Text.StripNul | browndust2_account_switcher.py:327 | `rstrip('\x00')`: the result is a prefix of the input with no trailing NUL, and only NULs were dropped |
| Text.StripNulAfter | browndust2_account_switcher.py:327 | `rstrip('\x00')` of a string ending in a non-NUL character followed by anything strips only within the tail |
| Text.Split | browndust2_account_switcher.py:328 | splitting on the field separator: at least one part, and no part contains the separator |
| Text.JoinSplit | browndust2_account_switcher.py:686-691 | joining the parts of a split gives back the original string |
| Text.SplitJoin | browndust2_account_switcher.py:394 | splitting a join of separator-free parts gives back exactly those parts |
| Text.SplitJoinThen | browndust2_account_switcher.py:389-394 | splitting separator-free parts joined and followed by a separator and any tail gives those parts, then the parts of the tail |
| Text.ParseDecimal | browndust2_account_switcher.py:330 | `int()` reads back every decimal numeral |
| Text.ReadNumberDecimal | browndust2_account_switcher.py:340-354 | the digits at the head of a label read back as the number they were rendered from, leaving the rest |
| OrderedDict.Get | browndust2_account_switcher.py:566 | a lookup finds a value exactly when the key is present |
| OrderedDict.GetAt | browndust2_account_switcher.py:566 | with unique keys, a lookup finds the value stored with the key |
| OrderedDict.PutNew | browndust2_account_switcher.py:531 | assigning a new key appends it at the end |
| OrderedDict.PutAt | browndust2_account_switcher.py:553 | assigning an existing key replaces its entry in its place |
| OrderedDict.RemoveAt | browndust2_account_switcher.py:609 | `del` cuts out exactly the entry of the key and keeps every other entry in order |
| OrderedDict.RemoveAbsent | browndust2_account_switcher.py:65 | dropping a key that is not there changes nothing |
| OrderedDict.RemoveDrops | browndust2_account_switcher.py:65 | after dropping a key no entry has it |
| OrderedDict.PutGet | browndust2_account_switcher.py:531 | after assignment the key reads the new value, other keys are unchanged, and keys stay unique |
| OrderedDict.RemoveGet | browndust2_account_switcher.py:609 | after `del` the key is absent, other keys are unchanged, and keys stay unique |
| OrderedDict.UpdateDisjoint | browndust2_account_switcher.py:82 | `update` with disjoint keys appends the other dictionary in its order |
| OrderedDict.RenameMoves | browndust2_account_switcher.py:592 | `d[new] = d.pop(old)` moves the entry to the end under the new key, and the others keep their order |
| OrderedDict.RenameGet | browndust2_account_switcher.py:592 | after a rename the new key holds the old value, the old key is absent, and the rest is unchanged |
| OrderedDict.PutTwice | browndust2_account_switcher.py:76-79 | setting the same key to the same value twice is the same as once |
| Credentials.FirstKeyIndex | browndust2_account_switcher.py:379-383 | the scan stops at the first entry whose name starts with the pattern; no earlier entry does |
| Credentials.FirstData | browndust2_account_switcher.py:291-294 | some entry starts with the pattern exactly when there is data, and the data is that of the first such entry only; later entries are never read |
| Credentials.IdentityPrefix | browndust2_account_switcher.py:389-394 | a prefix exists exactly when the token has at least four fields, and it splits back into those first four fields |
| Credentials.PrefixIgnoresTail | browndust2_account_switcher.py:389-394 | a token whose first four fields are given, followed by a separator and any tail (further fields, NUL padding), has exactly those four fields joined as its prefix |
| Credentials.MaskId | browndust2_account_switcher.py:451-454 | an id longer than six characters becomes its first four characters, `***` and its last two; a shorter id is shown as it is |
| Credentials.MaskHidesMiddle | browndust2_account_switcher.py:451-454 | ids that agree on their first four and last two characters mask alike, and the middle is `***` |
| Credentials.FirstIdIndex | browndust2_account_switcher.py:446-450 | the first access-token entry with a non-empty first field; no earlier entry has one |
| Credentials.MaskedTokenId | browndust2_account_switcher.py:445-456 | the mask of the id of the first access-token entry whose id is non-empty; empty exactly when every access-token entry has an empty id; at most nine characters |
| Credentials.MaskPrefixFields | browndust2_account_switcher.py:685-692 | `mask_prefix` keeps the field count and every field but the first, which is masked |
| AccountInfo.PlatformOf | browndust2_account_switcher.py:301-306 | a `FIREBASE_` path shows what follows the prefix; any other path is shown as it is |
| AccountInfo.ElapsedSeconds | browndust2_account_switcher.py:330-335 | the elapsed milliseconds truncated toward zero to whole seconds, in both directions of time |
| AccountInfo.AgeBucket | browndust2_account_switcher.py:335-354 | under an hour: whole minutes below 60; under a day: 1 to 23 hours; otherwise days of at least 1 and hours below 24, each bounding the age |
| AccountInfo.FutureTokenWraps | browndust2_account_switcher.py:335-344 | a token up to an hour in the future reads as minutes ago, wrapped by the floor modulo |
| AccountInfo.AgeLabel | browndust2_account_switcher.py:340-354 | the label starts with the bucket's number (days, then `天` or `d `, for the day bucket) and ends with the language's hours-ago or minutes-ago suffix |
| AccountInfo.DaysLabelReadsBack | browndust2_account_switcher.py:350-354 | the day-bucket label reads back as its days and hours |
| AccountInfo.AgeLabelReadsBack | browndust2_account_switcher.py:340-354 | every label reads back as the bucket it shows, in both languages, so distinct buckets never render alike |
| AccountInfo.TokenTime | browndust2_account_switcher.py:319-356 | the label is non-empty exactly when the token has an issue time, and then it is the rendered age bucket of the time elapsed since that issue time, which reads back as that bucket |
| AccountInfo.AuthDecoded | browndust2_account_switcher.py:290-300 | only the first auth-member entry is read; an empty blob is skipped, otherwise its NUL-stripped text is decoded |
| AccountInfo.IssuedAt | browndust2_account_switcher.py:319-330 | the issue time is field 5 of the first access token when it has at least six fields and that field is an integer; otherwise none |
| AccountInfo.ParseAccountInfo | browndust2_account_switcher.py:287-358 | with a decoded blob the platform is that of `reg_path`, the nation is `reg_nation` and the creation time is `crt_dt` when non-zero; otherwise those stay empty; the token label is the token time |
| Matching.LiveIdentity | browndust2_account_switcher.py:372-394 | no token (a missing or empty access token) versus an invalid one (fewer than four fields) versus the identity prefix of the first access token |
| Matching.FirstMatchIndex | browndust2_account_switcher.py:396-412 | the first saved account with a non-empty name and a matching access-token entry; no earlier account matches |
| Matching.FirstMatchAt | browndust2_account_switcher.py:396-412 | the scan's answer is the account at a position that matches when no earlier one does |
| Matching.ScanEntries | browndust2_account_switcher.py:398-409 | the inner scan hits exactly when some access-token entry of the account has the live identity prefix |
| Matching.MatchSavedAccount | browndust2_account_switcher.py:396-412 | the nested scan returns the first match, whose name is non-empty and present in the store |
| Matching.LiveMatchesItself | browndust2_account_switcher.py:396-409 | the live values, once saved, match the live identity |
| Matching.RefreshedSessionSameMatch | browndust2_account_switcher.py:648-664 | two live tokens that agree on their first four fields, whatever follows them (nothing, NUL padding or further fields), have the same identity and are recognised as the same account |
| Matching.RefreshedTailSameMatch | browndust2_account_switcher.py:648-664 | tokens made of the same four fields, a separator and any tail each have those four fields joined as their identity, and match the same account |
| Matching.RefreshKeepsMatch | browndust2_account_switcher.py:673 | after refreshing the matched account with the live values, the same account is still the match |
| Registry.FirstPattern | browndust2_account_switcher.py:44-47 | the first pattern the name starts with; none earlier matches |
| Registry.PatternOfStart | browndust2_account_switcher.py:26-29 | no name starts with both patterns, so a name belongs to the one pattern it starts with |
| Registry.LastIndexWith | browndust2_account_switcher.py:41-48 | the last entry whose name starts with the pattern; none later does |
| Registry.ByPatternKeys | browndust2_account_switcher.py:436-443 | re-keying yields unique keys, each of them a pattern |
| Registry.ByPatternLookup | browndust2_account_switcher.py:436-443 | under each pattern is the last entry starting with it; nothing is stored under a non-pattern |
| Registry.ResolvedNamesStart | browndust2_account_switcher.py:36-54 | each pattern resolves to a live name that starts with that pattern |
| Registry.GetRegistryKeys | browndust2_account_switcher.py:36-54 | a missing key gives nothing; otherwise per pattern the last enumerated name starting with it, keys unique |
| Registry.NormalizeAccountData | browndust2_account_switcher.py:436-443 | per pattern the last value whose name starts with it; other names dropped |
| Registry.PlanRegistryWrite | browndust2_account_switcher.py:483-514 | one write per saved entry, in order, with the entry's data and type and the target name |
| Registry.TargetName | browndust2_account_switcher.py:489-502 | a name without a credential pattern is written as it is; a token name goes to the live name of its pattern when there is one, else keeps its own |
| Registry.TargetFollowsLiveName | browndust2_account_switcher.py:497-502 | a token entry is written under the live name of its pattern when there is one, else under its own name; it still starts with the pattern |
| Registry.LogoutClearsLiveNames | browndust2_account_switcher.py:614-624 | logging out writes an empty binary value to exactly each live credential name |
| Store.Load | browndust2_account_switcher.py:56-73 | a parsed file gives the `_config` object as the config and every other entry, in order, as the accounts; corrupted exactly when a non-blank file does not parse; missing, blank or corrupted files give nothing |
| Store.LoadKeepsAccounts | browndust2_account_switcher.py:62-65 | loading cuts out only the `_config` entry, keeping the others in their order with their values, and keys stay unique |
| Store.SaveLayout | browndust2_account_switcher.py:75-82 | with no account named `_config`, the file is the stamped config followed by every account in order |
| Store.SaveLoadRoundTrip | browndust2_account_switcher.py:56-84 | reading back a saved file gives the same accounts and the stamped config, and saving that again writes the same file |
| Store.ReservedAccountClobbersConfig | browndust2_account_switcher.py:75-84 | as written, an account named `_config` replaces the config section and becomes the config on reload |
| Store.Toggled | browndust2_account_switcher.py:122 | the next language is `zh` or `en`, and it is `en` exactly when the current one is `zh` |
| Store.ToggleTwice | browndust2_account_switcher.py:122 | from either language a switch changes it, and two switches come back to it |
| Store.StartLanguage | browndust2_account_switcher.py:93-117 | a saved, available language wins; otherwise `zh` for the two Chinese UI language ids and `en` for any other |
| Store.LanguagePersists | browndust2_account_switcher.py:121-131 | the file a language switch writes restores the new language at the next start-up |
| Store.RegistryWrites | browndust2_account_switcher.py:483-514 | no writes when the registry key is missing; otherwise one write per entry with its data and type, under the target name resolved from the live names, token entries kept under a name of their pattern |
| Store.AccountSwitcher.constructor | browndust2_account_switcher.py:23-34 | the store starts from the loaded config and accounts, keeps the invariant, and picks the start-up language |
| Store.AccountSwitcher.SaveAccounts | browndust2_account_switcher.py:75-84 | the file written is the save layout of the current config and accounts |
| Store.AccountSwitcher.CurrentAccount | browndust2_account_switcher.py:372-420 | not logged in, invalid data, the matched name, or the masked id of an unknown session |
| Store.AccountSwitcher.SaveNewAccount | browndust2_account_switcher.py:516-535 | each refusal path leaves the store and file unchanged; otherwise the live values are stored under the name and saved; the reserved name is refused |
| Store.AccountSwitcher.OverwriteAccount | browndust2_account_switcher.py:537-557 | no selection, no live values or no confirmation changes nothing; otherwise the selected account gets the live values and is saved |
| Store.AccountSwitcher.RenameAccount | browndust2_account_switcher.py:577-595 | a cancelled, unchanged or taken name changes nothing; otherwise the entry moves to the new name at the end and is saved |
| Store.AccountSwitcher.DeleteAccount | browndust2_account_switcher.py:597-612 | once confirmed the selected account is removed and the store saved; otherwise nothing changes |
| Store.AccountSwitcher.RefreshToken | browndust2_account_switcher.py:626-683 | no values, no token, an invalid token, no match (masked prefix reported), or the matched account, which is updated with the live values and saved only when confirmed |
| Store.AccountSwitcher.LoadAccount | browndust2_account_switcher.py:559-575 | once confirmed the selected account's values are written to the registry; the store is untouched |
| Store.AccountSwitcher.LogoutAccount | browndust2_account_switcher.py:614-624 | once confirmed an empty binary value is written to each live credential name |
| Store.AccountSwitcher.SwitchLanguage | browndust2_account_switcher.py:121-131 | the language toggles, the config records it under `language`, the accounts are unchanged, and the file is saved |

## Left out

- The Qt user interface: windows, lists, menus, dialogs and message boxes. A
  dialog's answer (a name, `ok`, a confirmation) is a method parameter. The
  list selection is an `Option<string>` naming a saved account.
- The rest of the current-login label: the HTML markup and the translated
  words. `CurrentAccount` returns only the label's head.
- `tr` and the translation file: the text of every message. `load_translations`
  is modelled only for the config and the language choice.
- Windows registry I/O. This covers `OpenKey`, `EnumValue`, `QueryValueEx`,
  `SetValueEx`, decoding bytes as UTF-8 with errors ignored, and encoding on
  write. Enumerated names and live values are parameters. Writes are returned
  as a plan, so a write that fails midway is not modelled. `read_registry_values`
  is not part of this model beyond its result.
- JSON parsing and printing. The file is given with its parsed document. Objects
  are assumed to have no duplicate keys. A top-level value that is not an object
  is not modelled. Neither is a `_config` value that is not an object: loading
  keeps it as it is (line 64), and the bare `except` of `load_translations`
  (lines 100-103) swallows the failed lookup, so the source raises only at the
  next save (line 78) or language switch (line 126).
- ParseAccountInfo: decoding the auth-member blob is a parameter returning
  `None` on failure. A decoding failure part-way through, after the platform
  was set, is not modelled.
- ParseAccountInfo: the model returns empty fields where the source raises. A
  blob that is valid JSON but not an object makes `data.get` (line 301) raise
  `AttributeError`. A `reg_path` that is not a string (line 303) or a `crt_dt`
  that is not a number (line 314) raises `AttributeError` or `TypeError`. The
  `except` at line 316 catches none of these, so the source lets them escape,
  while `decode` maps them to `None`.
- ParseAccountInfo: the creation date is kept as the `crt_dt` milliseconds. The
  local-time formatting (`fromtimestamp`, `strftime`) is left out.
- ElapsedSeconds: the clock is the parameter `nowMs`. Local time, daylight
  saving, floating-point rounding of `total_seconds()`, and timestamps that
  `fromtimestamp` rejects are left out.
- Text.ParseInt: accepts an optional sign and ASCII digits. Python's `int()` also
  accepts surrounding whitespace, underscores and non-ASCII digits.
- StartLanguage: a saved `language` that is an object, not a string, makes the
  source raise; the model treats it as absent.
- The first `normalize_account_data` (lines 360-370). A later definition of the
  same name replaces it in the class, so it is never called.
- `get_app_dir`, window re-creation after a language switch, and the `__main__`
  block.

## Findings

| source | as written | input that shows it | evidently intended | confidence | as-written member | corrected member |
|---|---|---|---|---|---|---|
| browndust2_account_switcher.py:516-535, 577-595, 75-84 | `save_new_account` and `rename_account` accept the name `_config`; `save_accounts` then lets that account overwrite the config section, and on reload the account is gone and its credentials become the config | save an account named `_config`, then restart | the config's key is reserved and refused as an account name, so a save and a reload keep every account | not executed | Store.ReservedAccountClobbersConfig | Store.AccountSwitcher.SaveNewAccount |

`Store.AccountSwitcher.RenameAccount` refuses the reserved name in the same way.
Its invariant `Valid()` keeps `_config` out of the accounts, and
`Store.SaveLoadRoundTrip` proves that saving and reloading a store that keeps
the invariant restores every account.

Two other behaviours are modelled as written, not as findings:
- an account with an empty name never counts as a match
  (`Matching.FirstMatchIndex`), so the scan goes on past it;
- a token issued less than an hour in the future shows as minutes ago
  (`AccountInfo.FutureTokenWraps`).
