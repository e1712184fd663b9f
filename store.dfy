/**
 * The saved-account store of `AccountSwitcher`: the layout of accounts.json
 * on load and save, and the operations that change the accounts and the
 * config in place, each followed by a save of the whole file.
 */
module Store {
  import opened Wrappers
  import opened Text
  import opened OrderedDict
  import opened Credentials
  import opened Matching
  import opened Registry

  /** The top-level key of the config section; never an account. */
  const RESERVED_KEY: string := "_config"
  const WARNING_KEY: string := "_warning"
  const WARNING: string := "This file contains sensitive account data. Do NOT share or upload publicly."
  const LANGUAGE_KEY: string := "language"

  type Config = Dict<string, Value>
  type Accounts = Dict<string, RecordSet>

  /** The JSON object of accounts.json: every top-level key maps to an object. */
  type Document = Dict<string, Dict<string, Value>>

  /** Objects as `json.loads` builds them: no key twice, at either level. */
  predicate WellFormed(doc: Document) {
    NoDupKeys(doc) && forall i :: 0 <= i < |doc| ==> NoDupKeys(doc[i].1)
  }

  /** accounts.json as found at start-up: absent, or its text and what it parses to (`None`: not JSON). */
  datatype StoreFile = Missing | Present(text: string, parsed: Option<Document>)

  /** What start-up reads: the config, the accounts, and whether the file was corrupted. */
  datatype Loaded = Loaded(config: Config, accounts: Accounts, corrupted: bool)

  /**
   * `load_accounts` (with the config part of `load_translations`): a missing
   * or blank file gives nothing, an unparsable one gives nothing and a
   * warning, a parsed one gives `_config` as the config and every other
   * top-level entry as an account.
   */
  function Load(file: StoreFile): (r: Loaded)
    ensures !HasKey(r.accounts, RESERVED_KEY)
    ensures r.corrupted <==> file.Present? && !IsBlank(file.text) && file.parsed.None?
    ensures file.Missing? || IsBlank(file.text) || r.corrupted ==> r.accounts == [] && r.config == []
    ensures file.Present? && !IsBlank(file.text) && file.parsed.Some? ==>
      r.config == Get(file.parsed.value, RESERVED_KEY).GetOr([]) && r.accounts == Remove(file.parsed.value, RESERVED_KEY)
  {
    match file
    case Missing => Loaded([], [], false)
    case Present(text, parsed) =>
      if IsBlank(text) then Loaded([], [], false)
      else
        match parsed
        case None => Loaded([], [], true)
        case Some(doc) =>
          RemoveDrops(doc, RESERVED_KEY);
          Loaded(Get(doc, RESERVED_KEY).GetOr([]), Remove(doc, RESERVED_KEY), false)
  }

  /** Loading keeps every top-level entry but `_config`, in order, with its value unchanged. */
  lemma LoadKeepsAccounts(text: string, doc: Document, name: string)
    requires !IsBlank(text) && WellFormed(doc)
    ensures NoDupKeys(Load(Present(text, Some(doc))).accounts)
    ensures NoDupKeys(Load(Present(text, Some(doc))).config)
    ensures Get(Load(Present(text, Some(doc))).accounts, name) == if name == RESERVED_KEY then None else Get(doc, name)
    ensures !HasKey(doc, RESERVED_KEY) ==> Load(Present(text, Some(doc))).accounts == doc
    ensures forall i :: 0 <= i < |doc| && doc[i].0 == RESERVED_KEY ==>
      Load(Present(text, Some(doc))).accounts == doc[..i] + doc[i + 1..]
  {
    forall i | 0 <= i < |doc| && doc[i].0 == RESERVED_KEY
      ensures Remove(doc, RESERVED_KEY) == doc[..i] + doc[i + 1..]
    {
      RemoveAt(doc, i);
    }
    if !HasKey(doc, RESERVED_KEY) {
      RemoveAbsent(doc, RESERVED_KEY);
    }
    RemoveGet(doc, RESERVED_KEY, name);
    if HasKey(doc, RESERVED_KEY) {
      var i :| 0 <= i < |doc| && doc[i].0 == RESERVED_KEY;
      GetAt(doc, i);
    }
  }

  /** The config section as saved: the config with `_warning` set to the constant text. */
  function Stamp(config: Config): Config {
    Put(config, WARNING_KEY, Raw(WARNING))
  }

  /** `save_accounts`: `{'_config': {**config, '_warning': ...}}` updated with every account. */
  function SaveDocument(config: Config, accounts: Accounts): Document {
    Update([(RESERVED_KEY, Stamp(config))], accounts)
  }

  /** With no account named `_config`, the file is the stamped config followed by every account in order. */
  lemma SaveLayout(config: Config, accounts: Accounts)
    requires NoDupKeys(accounts) && !HasKey(accounts, RESERVED_KEY)
    ensures SaveDocument(config, accounts) == [(RESERVED_KEY, Stamp(config))] + accounts
  {
    UpdateDisjoint([(RESERVED_KEY, Stamp(config))], accounts);
  }

  /**
   * Reading back a saved file gives the same accounts and the stamped
   * config; saving again then writes the same document.
   */
  lemma SaveLoadRoundTrip(config: Config, accounts: Accounts, text: string)
    requires NoDupKeys(config) && NoDupKeys(accounts) && !HasKey(accounts, RESERVED_KEY)
    requires !IsBlank(text)
    ensures Load(Present(text, Some(SaveDocument(config, accounts)))) == Loaded(Stamp(config), accounts, false)
    ensures SaveDocument(Stamp(config), accounts) == SaveDocument(config, accounts)
  {
    SaveLayout(config, accounts);
    var doc := [(RESERVED_KEY, Stamp(config))] + accounts;
    assert NoDupKeys(doc);
    RemoveAt(doc, 0);
    assert doc[1..] == accounts;
    PutTwice(config, WARNING_KEY, Raw(WARNING));
  }

  /**
   * As written, an account named `_config` overwrites the config section on
   * save: the file loses the config and the warning, and on reload the
   * account is gone and its credentials become the config.
   */
  lemma ReservedAccountClobbersConfig(config: Config, rs: RecordSet, text: string)
    requires !IsBlank(text)
    ensures SaveDocument(config, [(RESERVED_KEY, rs)]) == [(RESERVED_KEY, rs)]
    ensures Load(Present(text, Some(SaveDocument(config, [(RESERVED_KEY, rs)])))) == Loaded(rs, [], false)
  {
    var accounts := [(RESERVED_KEY, rs)];
    assert accounts[1..] == [];
    var doc := SaveDocument(config, accounts);
    assert doc == Update(Put([(RESERVED_KEY, Stamp(config))], RESERVED_KEY, rs), accounts[1..]);
    assert Remove(doc, RESERVED_KEY) == [];
  }

  /** `switch_language`: Chinese becomes English, anything else becomes Chinese. */
  function Toggled(lang: string): (next: string)
    ensures next == "zh" || next == "en"
    ensures next == "en" <==> lang == "zh"
  {
    if lang == "zh" then "en" else "zh"
  }

  /** Switching twice from either supported language comes back to it, and a switch always changes it. */
  lemma ToggleTwice(lang: string)
    requires lang == "zh" || lang == "en"
    ensures Toggled(lang) != lang
    ensures Toggled(Toggled(lang)) == lang
  {
  }

  /** Windows UI language ids that select Chinese at start-up. */
  const LANG_ID_ZH_CN: int := 0x0804
  const LANG_ID_ZH_TW: int := 0x0404

  /**
   * The start-up language (`load_translations`): the saved `language` when it
   * names an available translation, else Chinese for a Chinese Windows UI
   * language and English otherwise (`uiLanguage == None`: the query failed).
   */
  function StartLanguage(config: Config, available: set<string>, uiLanguage: Option<int>): (lang: string)
    ensures lang in available || lang == "zh" || lang == "en"
    ensures forall saved :: Get(config, LANGUAGE_KEY) == Some(Raw(saved)) && saved != "" && saved in available ==> lang == saved
    ensures (forall saved :: Get(config, LANGUAGE_KEY) == Some(Raw(saved)) ==> saved == "" || saved !in available) ==>
      lang == if uiLanguage == Some(LANG_ID_ZH_CN) || uiLanguage == Some(LANG_ID_ZH_TW) then "zh" else "en"
  {
    var saved := Get(config, LANGUAGE_KEY);
    if saved.Some? && saved.value.Raw? && saved.value.text != "" && saved.value.text in available then saved.value.text
    else if uiLanguage == Some(LANG_ID_ZH_CN) || uiLanguage == Some(LANG_ID_ZH_TW) then "zh"
    else "en"
  }

  /**
   * A language switch survives the restart that follows it: the config
   * written by `switch_language` brings the new language back at start-up,
   * whatever the UI language.
   */
  lemma LanguagePersists(config: Config, accounts: Accounts, lang: string, text: string, available: set<string>, uiLanguage: Option<int>)
    requires NoDupKeys(config) && NoDupKeys(accounts) && !HasKey(accounts, RESERVED_KEY)
    requires !IsBlank(text)
    requires Toggled(lang) in available
    ensures StartLanguage(Load(Present(text, Some(SaveDocument(Put(config, LANGUAGE_KEY, Raw(Toggled(lang))), accounts)))).config,
                          available, uiLanguage) == Toggled(lang)
  {
    var next := Toggled(lang);
    var switched := Put(config, LANGUAGE_KEY, Raw(next));
    PutGet(config, LANGUAGE_KEY, Raw(next), LANGUAGE_KEY);
    SaveLoadRoundTrip(switched, accounts, text);
    PutGet(switched, WARNING_KEY, Raw(WARNING), LANGUAGE_KEY);
  }

  /** What a store operation did, or why it did nothing. */
  datatype Outcome = NoSelection | NoLiveValues | Cancelled | Declined | ReservedName | NameTaken | SameName | WriteFailed | Done

  /**
   * What `write_registry_values` writes for `values`: one value per entry,
   * each token entry retargeted at the live name of its pattern; nothing
   * when the registry key is missing (`enumerated == None`).
   */
  function RegistryWrites(enumerated: Option<seq<string>>, values: RecordSet): (writes: Option<seq<RegWrite>>)
    ensures writes.None? <==> enumerated.None?
    ensures writes.Some? ==> |writes.value| == |values|
    ensures writes.Some? ==> forall i :: 0 <= i < |values| ==>
      writes.value[i].name == TargetName(ByPattern(NamePairs(enumerated.value)), values[i].0)
    ensures writes.Some? ==> forall i :: 0 <= i < |values| ==>
      writes.value[i].data == DataOf(values[i].1) && writes.value[i].regType == TypeOf(values[i].1)
    ensures writes.Some? ==> forall i, p :: 0 <= i < |values| && p in TOKEN_KEY_PATTERNS && StartsWith(values[i].0, p) ==>
      StartsWith(writes.value[i].name, p)
  {
    match enumerated
    case None => None
    case Some(names) =>
      var ws := seq(|values|, i requires 0 <= i < |values| => PlannedWrite(ByPattern(NamePairs(names)), values[i]));
      forall i, p | 0 <= i < |values| && p in TOKEN_KEY_PATTERNS && StartsWith(values[i].0, p)
        ensures StartsWith(ws[i].name, p)
      {
        TargetFollowsLiveName(names, values[i].0, p);
      }
      Some(ws)
  }

  /** What the token refresh did. */
  datatype RefreshOutcome =
    | NotRead
    | TokenMissing
    | TokenInvalid
    | NoMatch(maskedPrefix: string)
    | KeptOld(name: string)
    | Updated(name: string)

  /** The head of the current-login label. */
  datatype CurrentStatus = NotLoggedIn | InvalidData | Recognised(name: string) | Unrecognised(maskedId: string)

  class AccountSwitcher {
    var accounts: Accounts
    var config: Config
    var lang: string
    /** The document this session last wrote to accounts.json (`None`: not written yet). */
    var savedFile: Option<Document>

    /** Dictionary keys are unique, and no account uses the config's key. */
    ghost predicate Valid()
      reads this
    {
      NoDupKeys(accounts) && NoDupKeys(config) && !HasKey(accounts, RESERVED_KEY)
    }

    /**
     * Start-up (`__init__`): config and accounts read from the file, which is
     * left as it is, and the language chosen from the config, the available
     * translations and the Windows UI language.
     */
    constructor (file: StoreFile, available: set<string>, uiLanguage: Option<int>)
      requires file.Present? && file.parsed.Some? ==> WellFormed(file.parsed.value)
      ensures Valid()
      ensures accounts == Load(file).accounts && config == Load(file).config
      ensures lang == StartLanguage(Load(file).config, available, uiLanguage)
      ensures savedFile == None
    {
      var loaded := Load(file);
      if file.Present? && !IsBlank(file.text) && file.parsed.Some? {
        LoadKeepsAccounts(file.text, file.parsed.value, RESERVED_KEY);
      }
      accounts := loaded.accounts;
      config := loaded.config;
      lang := StartLanguage(loaded.config, available, uiLanguage);
      savedFile := None;
    }

    /** `save_accounts`: the whole store is written out. */
    method SaveAccounts()
      modifies this`savedFile
      ensures savedFile == Some(SaveDocument(config, accounts))
    {
      savedFile := Some(SaveDocument(config, accounts));
    }

    /**
     * `update_current_account_display`, label head only: not logged in,
     * invalid token, the first saved account with the same identity, or the
     * masked id of an unknown session.
     */
    method CurrentAccount(live: RecordSet) returns (status: CurrentStatus)
      ensures |live| == 0 ==> status == NotLoggedIn
      ensures |live| > 0 && LiveIdentity(live) == Failure(NoToken) ==> status == NotLoggedIn
      ensures |live| > 0 && LiveIdentity(live) == Failure(InvalidToken) ==> status == InvalidData
      ensures |live| > 0 && LiveIdentity(live).Success? ==>
        status == match FindMatch(accounts, LiveIdentity(live).value)
                  case Some(name) => Recognised(name)
                  case None => Unrecognised(MaskedTokenId(live))
    {
      if |live| == 0 {
        return NotLoggedIn;
      }
      match LiveIdentity(live)
      case Failure(NoToken) =>
        status := NotLoggedIn;
      case Failure(InvalidToken) =>
        status := InvalidData;
      case Success(currentPrefix) =>
        var matched := MatchSavedAccount(accounts, currentPrefix);
        if matched.Some? {
          status := Recognised(matched.value);
        } else {
          status := Unrecognised(MaskedTokenId(live));
        }
    }

    /**
     * `save_new_account`: store the live values under a new name; an existing
     * name is overwritten only when confirmed; the config's key is refused.
     */
    method SaveNewAccount(live: RecordSet, name: string, ok: bool, overwriteConfirmed: bool) returns (outcome: Outcome)
      requires Valid()
      modifies this
      ensures Valid()
      ensures config == old(config) && lang == old(lang)
      ensures outcome ==
        if |live| == 0 then NoLiveValues
        else if !ok || name == "" then Cancelled
        else if name == RESERVED_KEY then ReservedName
        else if HasKey(old(accounts), name) && !overwriteConfirmed then Declined
        else Done
      ensures outcome == Done ==> accounts == Put(old(accounts), name, live) && savedFile == Some(SaveDocument(config, accounts))
      ensures outcome != Done ==> accounts == old(accounts) && savedFile == old(savedFile)
    {
      if |live| == 0 {
        return NoLiveValues;
      }
      if !ok || name == "" {
        return Cancelled;
      }
      if name == RESERVED_KEY {
        return ReservedName;
      }
      if HasKey(accounts, name) && !overwriteConfirmed {
        return Declined;
      }
      PutGet(accounts, name, live, RESERVED_KEY);
      accounts := Put(accounts, name, live);
      SaveAccounts();
      outcome := Done;
    }

    /** `overwrite_account`: replace the selected account's values with the live ones once confirmed. */
    method OverwriteAccount(selected: Option<string>, live: RecordSet, confirmed: bool) returns (outcome: Outcome)
      requires Valid()
      requires selected.Some? ==> HasKey(accounts, selected.value)
      modifies this
      ensures Valid()
      ensures config == old(config) && lang == old(lang)
      ensures outcome ==
        if selected.None? then NoSelection
        else if |live| == 0 then NoLiveValues
        else if !confirmed then Declined
        else Done
      ensures outcome == Done ==> accounts == Put(old(accounts), selected.value, live) && savedFile == Some(SaveDocument(config, accounts))
      ensures outcome != Done ==> accounts == old(accounts) && savedFile == old(savedFile)
    {
      if selected.None? {
        return NoSelection;
      }
      if |live| == 0 {
        return NoLiveValues;
      }
      if !confirmed {
        return Declined;
      }
      var name := selected.value;
      PutGet(accounts, name, live, RESERVED_KEY);
      accounts := Put(accounts, name, live);
      SaveAccounts();
      outcome := Done;
    }

    /**
     * `rename_account`: move the selected account to a new, unused name,
     * keeping its values; an empty or unchanged name does nothing, a taken
     * name or the config's key is refused.
     */
    method RenameAccount(selected: Option<string>, newName: string, ok: bool) returns (outcome: Outcome)
      requires Valid()
      requires selected.Some? ==> HasKey(accounts, selected.value)
      modifies this
      ensures Valid()
      ensures config == old(config) && lang == old(lang)
      ensures outcome ==
        if selected.None? then NoSelection
        else if !ok || newName == "" then Cancelled
        else if newName == selected.value then SameName
        else if HasKey(old(accounts), newName) then NameTaken
        else if newName == RESERVED_KEY then ReservedName
        else Done
      ensures outcome == Done ==> accounts == Rename(old(accounts), selected.value, newName) && savedFile == Some(SaveDocument(config, accounts))
      ensures outcome != Done ==> accounts == old(accounts) && savedFile == old(savedFile)
    {
      if selected.None? {
        return NoSelection;
      }
      var oldName := selected.value;
      if !ok || newName == "" {
        return Cancelled;
      }
      if newName == oldName {
        return SameName;
      }
      if HasKey(accounts, newName) {
        return NameTaken;
      }
      if newName == RESERVED_KEY {
        return ReservedName;
      }
      RenameGet(accounts, oldName, newName, RESERVED_KEY);
      accounts := Rename(accounts, oldName, newName);
      SaveAccounts();
      outcome := Done;
    }

    /** `delete_account`: remove the selected account once confirmed. */
    method DeleteAccount(selected: Option<string>, confirmed: bool) returns (outcome: Outcome)
      requires Valid()
      requires selected.Some? ==> HasKey(accounts, selected.value)
      modifies this
      ensures Valid()
      ensures config == old(config) && lang == old(lang)
      ensures outcome == if selected.None? then NoSelection else if !confirmed then Declined else Done
      ensures outcome == Done ==> accounts == Remove(old(accounts), selected.value) && savedFile == Some(SaveDocument(config, accounts))
      ensures outcome != Done ==> accounts == old(accounts) && savedFile == old(savedFile)
    {
      if selected.None? {
        return NoSelection;
      }
      if !confirmed {
        return Declined;
      }
      RemoveGet(accounts, selected.value, RESERVED_KEY);
      accounts := Remove(accounts, selected.value);
      SaveAccounts();
      outcome := Done;
    }

    /**
     * `refresh_token`: find the saved account with the live identity and,
     * once confirmed, replace its values with the live ones; without a match
     * report the masked prefix.
     */
    method RefreshToken(live: RecordSet, confirmed: bool) returns (outcome: RefreshOutcome)
      requires Valid()
      modifies this
      ensures Valid()
      ensures config == old(config) && lang == old(lang)
      ensures |live| == 0 ==> outcome == NotRead
      ensures |live| > 0 && LiveIdentity(live) == Failure(NoToken) ==> outcome == TokenMissing
      ensures |live| > 0 && LiveIdentity(live) == Failure(InvalidToken) ==> outcome == TokenInvalid
      ensures |live| > 0 && LiveIdentity(live).Success? ==>
        outcome == match FindMatch(old(accounts), LiveIdentity(live).value)
                   case None => NoMatch(MaskPrefix(LiveIdentity(live).value))
                   case Some(name) => if confirmed then Updated(name) else KeptOld(name)
      ensures outcome.Updated? ==> accounts == Put(old(accounts), outcome.name, live) && savedFile == Some(SaveDocument(config, accounts))
      ensures !outcome.Updated? ==> accounts == old(accounts) && savedFile == old(savedFile)
    {
      if |live| == 0 {
        return NotRead;
      }
      match LiveIdentity(live)
      case Failure(NoToken) =>
        outcome := TokenMissing;
      case Failure(InvalidToken) =>
        outcome := TokenInvalid;
      case Success(currentPrefix) =>
        var matched := MatchSavedAccount(accounts, currentPrefix);
        if matched.None? {
          outcome := NoMatch(MaskPrefix(currentPrefix));
        } else if !confirmed {
          outcome := KeptOld(matched.value);
        } else {
          PutGet(accounts, matched.value, live, RESERVED_KEY);
          accounts := Put(accounts, matched.value, live);
          SaveAccounts();
          outcome := Updated(matched.value);
        }
    }

    /**
     * `load_account`: once confirmed, write the selected account's saved
     * values to the registry; the store is not changed.
     */
    method LoadAccount(selected: Option<string>, confirmed: bool, enumerated: Option<seq<string>>)
      returns (outcome: Outcome, writes: seq<RegWrite>)
      requires selected.Some? ==> HasKey(accounts, selected.value)
      ensures outcome ==
        if selected.None? then NoSelection
        else if !confirmed then Declined
        else if enumerated.None? then WriteFailed
        else Done
      ensures outcome == Done ==> Some(writes) == RegistryWrites(enumerated, Get(accounts, selected.value).value)
      ensures outcome != Done ==> writes == []
    {
      writes := [];
      if selected.None? {
        return NoSelection, [];
      }
      if !confirmed {
        return Declined, [];
      }
      if enumerated.None? {
        return WriteFailed, [];
      }
      var liveKeys := GetRegistryKeys(enumerated);
      var values := Get(accounts, selected.value).value;
      writes := PlanRegistryWrite(liveKeys, values);
      assert writes == RegistryWrites(enumerated, values).value;
      outcome := Done;
    }

    /**
     * `logout_account`: once confirmed, clear every live token value, as an
     * empty binary value under its live name.
     */
    method LogoutAccount(confirmed: bool, enumerated: Option<seq<string>>) returns (outcome: Outcome, writes: seq<RegWrite>)
      ensures outcome == if !confirmed then Declined else if enumerated.None? then WriteFailed else Done
      ensures outcome == Done ==> Some(writes) == RegistryWrites(enumerated, LogoutValues(ByPattern(NamePairs(enumerated.value))))
      ensures outcome == Done ==> forall i :: 0 <= i < |writes| ==> writes[i].data == "" && writes[i].regType == REG_BINARY
      ensures outcome != Done ==> writes == []
    {
      if !confirmed {
        return Declined, [];
      }
      if enumerated.None? {
        return WriteFailed, [];
      }
      var liveKeys := GetRegistryKeys(enumerated);
      var empty := LogoutValues(liveKeys);
      writes := PlanRegistryWrite(liveKeys, empty);
      assert writes == RegistryWrites(enumerated, empty).value;
      outcome := Done;
    }

    /** `switch_language`: toggle the language and persist it in the config. */
    method SwitchLanguage()
      requires Valid()
      modifies this
      ensures Valid()
      ensures lang == Toggled(old(lang))
      ensures config == Put(old(config), LANGUAGE_KEY, Raw(lang))
      ensures Get(config, LANGUAGE_KEY) == Some(Raw(lang))
      ensures accounts == old(accounts)
      ensures savedFile == Some(SaveDocument(config, accounts))
    {
      lang := Toggled(lang);
      PutGet(config, LANGUAGE_KEY, Raw(lang), LANGUAGE_KEY);
      config := Put(config, LANGUAGE_KEY, Raw(lang));
      SaveAccounts();
    }
  }
}
