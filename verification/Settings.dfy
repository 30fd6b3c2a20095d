/**
  Saving the settings: the user's edits are merged into whatever is on disk at that moment, which
  the Host may have changed since the settings were loaded.
 */
module Settings {
  import opened Utf8
  import opened JsonPath
  import Sequences

  // ----- The dictionary switches -----

  datatype Dictionary = Dictionary(sudachi: bool, neologd: bool, namedEntity: bool, technicalTerms: bool,
                                   userDictionary: bool, autoWords: bool, appSpecific: bool)

  const DEFAULTS := Dictionary(true, false, true, true, true, true, true)

  const SWITCHES: nat := 7

  /** A switch's key in settings.json. */
  function Key(i: nat): string
    requires i < SWITCHES
  {
    if i == 0 then "sudachiEnabled" else if i == 1 then "neologdEnabled" else if i == 2 then "namedEntityEnabled"
    else if i == 3 then "technicalTermsEnabled" else if i == 4 then "userDictionaryEnabled"
    else if i == 5 then "autoWordsEnabled" else "appSpecificDictionaryEnabled"
  }

  function Switch(d: Dictionary, i: nat): bool
    requires i < SWITCHES
  {
    if i == 0 then d.sudachi else if i == 1 then d.neologd else if i == 2 then d.namedEntity
    else if i == 3 then d.technicalTerms else if i == 4 then d.userDictionary
    else if i == 5 then d.autoWords else d.appSpecific
  }

  function WithSwitch(d: Dictionary, i: nat, on: bool): (r: Dictionary)
    requires i < SWITCHES
    ensures forall k :: 0 <= k < SWITCHES ==> Switch(r, k) == if k == i then on else Switch(d, k)
  {
    if i == 0 then d.(sudachi := on) else if i == 1 then d.(neologd := on) else if i == 2 then d.(namedEntity := on)
    else if i == 3 then d.(technicalTerms := on) else if i == 4 then d.(userDictionary := on)
    else if i == 5 then d.(autoWords := on) else d.(appSpecific := on)
  }

  function SwitchPath(i: nat): Keys
    requires i < SWITCHES
  {
    ["dictionary", Key(i)]
  }

  /** What a switch is, given what stands at its path. */
  function SwitchValue(stored: Option<Json>, i: nat): bool
    requires i < SWITCHES
  {
    if stored.Some? && stored.value.Bool? then stored.value.flag else Switch(DEFAULTS, i)
  }

  function ReadSwitch(root: Members, i: nat): bool
    requires i < SWITCHES
  {
    SwitchValue(Get(root, SwitchPath(i)), i)
  }

  lemma {:induction false} KeysDiffer(i: nat, k: nat)
    requires i < SWITCHES && k < SWITCHES && i != k
    ensures Apart(SwitchPath(i), SwitchPath(k))
  {
    assert |Key(i)| == |Key(k)| ==> Key(i)[0] != Key(k)[0];
    assert SwitchPath(i)[1] != SwitchPath(k)[1];
  }

  lemma {:induction false} ShortKeys()
    ensures NoDot("sudachiEnabled") && NoDot("neologdEnabled") && NoDot("autoWordsEnabled") && NoDot("dictionary")
  {
  }

  lemma {:induction false} MiddleKeys()
    ensures NoDot("namedEntityEnabled") && NoDot("technicalTermsEnabled")
  {
  }

  lemma {:induction false} LongKeys()
    ensures NoDot("userDictionaryEnabled") && NoDot("appSpecificDictionaryEnabled")
  {
  }

  lemma {:induction false} KeyHasNoDot(i: nat)
    requires i < SWITCHES
    ensures NoDot(Key(i))
  {
    hide NoDot;
    ShortKeys();
    MiddleKeys();
    LongKeys();
  }

  lemma {:induction false} SwitchPathSplit(i: nat)
    requires i < SWITCHES
    ensures Split("dictionary." + Key(i)) == SwitchPath(i)
  {
    hide Split, NoDot, Key;
    KeyHasNoDot(i);
    assert NoDot("dictionary") by { ShortKeys(); }
    var keys := SwitchPath(i);
    SplitJoin(keys);
    assert Join(keys[1..]) == Key(i);
    assert Join(keys) == "dictionary." + Key(i);
  }

  /** The switches as loaded: what is stored where it is a boolean, the defaults elsewhere. */
  method ExtractDictionarySettings(root: Members) returns (d: Dictionary)
    ensures forall i :: 0 <= i < SWITCHES ==> Switch(d, i) == ReadSwitch(root, i)
    ensures d == SwitchesOf(Child(root, "dictionary"))
  {
    SwitchesNamed(root);
    hide Switch, Key, SwitchesOf, StoredFlag;
    d := DEFAULTS;
    if "dictionary" !in root || !root["dictionary"].Object? {
      SameSwitches(d, SwitchesOf(Child(root, "dictionary")), root);
      return;
    }
    var stored := root["dictionary"].members;
    var i := 0;
    while i < SWITCHES
      invariant i <= SWITCHES
      invariant forall k :: 0 <= k < i ==> Switch(d, k) == ReadSwitch(root, k)
      invariant forall k :: i <= k < SWITCHES ==> Switch(d, k) == Switch(DEFAULTS, k)
    {
      if Key(i) in stored && stored[Key(i)].Bool? { d := WithSwitch(d, i, stored[Key(i)].flag); }
      GetTwo(root, "dictionary", Key(i));
      assert Switch(d, i) == ReadSwitch(root, i);
      i := i + 1;
    }
    SameSwitches(d, SwitchesOf(Child(root, "dictionary")), root);
  }

  function StoredFlag(stored: Members, key: string, fallback: bool): bool
  {
    if key in stored && stored[key].Bool? then stored[key].flag else fallback
  }

  /** The switches by name, with the defaults of the settings schema. */
  function SwitchesOf(stored: Members): Dictionary
  {
    Dictionary(StoredFlag(stored, "sudachiEnabled", true), StoredFlag(stored, "neologdEnabled", false),
               StoredFlag(stored, "namedEntityEnabled", true), StoredFlag(stored, "technicalTermsEnabled", true),
               StoredFlag(stored, "userDictionaryEnabled", true), StoredFlag(stored, "autoWordsEnabled", true),
               StoredFlag(stored, "appSpecificDictionaryEnabled", true))
  }

  /** Each switch is read from its own key. */
  lemma {:induction false} SwitchesNamed(root: Members)
    ensures forall i :: 0 <= i < SWITCHES ==> Switch(SwitchesOf(Child(root, "dictionary")), i) == ReadSwitch(root, i)
  {
    hide Child, StoredFlag;
    forall i | 0 <= i < SWITCHES ensures Switch(SwitchesOf(Child(root, "dictionary")), i) == ReadSwitch(root, i) {
      SwitchRead(root, i);
    }
  }

  lemma {:induction false} SwitchRead(root: Members, i: nat)
    requires i < SWITCHES
    ensures ReadSwitch(root, i) == StoredFlag(Child(root, "dictionary"), Key(i), Switch(DEFAULTS, i))
  {
    hide Child, Switch, Key;
    GetTwo(root, "dictionary", Key(i));
  }

  lemma {:induction false} SameSwitches(a: Dictionary, b: Dictionary, root: Members)
    requires forall i :: 0 <= i < SWITCHES ==> Switch(a, i) == ReadSwitch(root, i)
    requires forall i :: 0 <= i < SWITCHES ==> Switch(b, i) == ReadSwitch(root, i)
    ensures a == b
  {
    hide ReadSwitch;
    forall i | 0 <= i < SWITCHES ensures Switch(a, i) == Switch(b, i) { assert Switch(a, i) == ReadSwitch(root, i); }
    assert Switch(a, 0) == Switch(b, 0) && Switch(a, 1) == Switch(b, 1) && Switch(a, 2) == Switch(b, 2);
    assert Switch(a, 3) == Switch(b, 3) && Switch(a, 4) == Switch(b, 4) && Switch(a, 5) == Switch(b, 5);
    assert Switch(a, 6) == Switch(b, 6);
  }

  // ----- The settings being saved -----

  datatype SettingValue = BoolValue(flag: bool) | IntegerValue(n: int) | NumberValue(x: real) | TextValue(text: string)
                        | ListValue(items: seq<string>)

  function ToJson(v: SettingValue): Json
  {
    match v
    case BoolValue(flag) => Bool(flag)
    case IntegerValue(n) => Number(n as real)
    case NumberValue(x) => Number(x)
    case TextValue(text) => String(text)
    case ListValue(items) => Array(seq(|items|, i requires 0 <= i < |items| => String(items[i])))
  }

  datatype Kind = BoolKind | IntegerKind | NumberKind | EnumKind | StringKind | ListKind

  /** A generic field: what it holds and what it is when nothing is stored. */
  datatype Field = Field(kind: Kind, fallback: SettingValue)

  type Fields = map<string, Field>

  type Values = map<string, SettingValue>

  predicate OfKind(kind: Kind, v: SettingValue)
  {
    match kind
    case BoolKind => v.BoolValue?
    case IntegerKind => v.IntegerValue?
    case NumberKind => v.NumberValue?
    case EnumKind => v.TextValue?
    case StringKind => v.TextValue?
    case ListKind => v.ListValue?
  }

  const MAX_INTEGER: int := 9007199254740992

  /** Integers are read back only where a double tells them apart. */
  predicate Loadable(v: SettingValue) { v.IntegerValue? ==> -MAX_INTEGER <= v.n <= MAX_INTEGER }

  function Texts(items: seq<Json>): Option<seq<string>>
  {
    if items == [] then Some([])
    else if !items[|items| - 1].String? then None
    else match Texts(items[..|items| - 1])
      case None => None
      case Some(front) => Some(front + [items[|items| - 1].text])
  }

  /** What a stored value of a kind is read as, if anything. */
  function Parsed(kind: Kind, json: Json): Option<SettingValue>
  {
    match kind
    case BoolKind => if json.Bool? then Some(BoolValue(json.flag)) else None
    case IntegerKind =>
      if json.Number? && json.number.Floor as real == json.number && -MAX_INTEGER <= json.number.Floor <= MAX_INTEGER
      then Some(IntegerValue(json.number.Floor)) else None
    case NumberKind => if json.Number? then Some(NumberValue(json.number)) else None
    case EnumKind => if json.String? then Some(TextValue(json.text)) else None
    case StringKind => if json.String? then Some(TextValue(json.text)) else None
    case ListKind =>
      if !json.Array? then None
      else match Texts(json.items) case None => None case Some(texts) => Some(ListValue(texts))
  }

  lemma {:induction false} TextsBack(texts: seq<string>, items: seq<Json>)
    requires |items| == |texts| && forall i :: 0 <= i < |texts| ==> items[i] == String(texts[i])
    ensures Texts(items) == Some(texts)
    decreases |texts|
  {
    if texts != [] {
      TextsBack(texts[..|texts| - 1], items[..|items| - 1]);
      Sequences.SliceSnoc(texts, 0, |texts| - 1);
      Sequences.WholeSlice(texts);
    }
  }

  /** A value is read back from what is stored for it, under its own kind, exactly when it can be. */
  lemma {:induction false} JsonRoundTrip(kind: Kind, v: SettingValue)
    requires OfKind(kind, v)
    ensures Parsed(kind, ToJson(v)) == (if Loadable(v) then Some(v) else None)
  {
    if v.ListValue? { TextsBack(v.items, ToJson(v).items); }
  }

  /** The loader's reading of one stored value: a value of another kind, or an invalid one, is dropped. */
  method FromJson(path: string, field: Field, json: Json, valid: (string, SettingValue) -> bool)
    returns (r: Option<SettingValue>)
    ensures r == match Parsed(field.kind, json)
                 case None => None
                 case Some(v) => if valid(path, v) then Some(v) else None
  {
    match field.kind {
      case BoolKind => r := if json.Bool? then Some(BoolValue(json.flag)) else None;
      case IntegerKind =>
        r := None;
        if json.Number? && json.number.Floor as real == json.number &&
           -9007199254740992.0 <= json.number <= 9007199254740992.0 {
          r := Some(IntegerValue(json.number.Floor));
        }
      case NumberKind => r := if json.Number? then Some(NumberValue(json.number)) else None;
      case EnumKind => r := if json.String? then Some(TextValue(json.text)) else None;
      case StringKind => r := if json.String? then Some(TextValue(json.text)) else None;
      case ListKind =>
        if !json.Array? { return None; }
        var texts := ReadTexts(json.items);
        r := if texts.Some? then Some(ListValue(texts.value)) else None;
    }
    if r.Some? && !valid(path, r.value) { r := None; }
  }

  method ReadTexts(items: seq<Json>) returns (r: Option<seq<string>>)
    ensures r == Texts(items)
  {
    var texts: seq<string> := [];
    Sequences.WholeSlice(items);
    for i := 0 to |items|
      invariant Texts(items[..i]) == Some(texts)
    {
      Sequences.SliceSnoc(items, 0, i);
      assert items[..i + 1][..i] == items[..i];
      if !items[i].String? {
        NotAllTexts(items, i);
        return None;
      }
      texts := texts + [items[i].text];
    }
    r := Some(texts);
  }

  lemma {:induction false} NotAllTexts(items: seq<Json>, i: nat)
    requires i < |items| && !items[i].String?
    ensures Texts(items).None?
    decreases |items|
  {
    if i < |items| - 1 { NotAllTexts(items[..|items| - 1], i); }
  }

  /** What a generic field is after loading: the stored value if it is one, else the default. */
  function LoadedValue(root: Members, p: string, field: Field, valid: (string, SettingValue) -> bool): SettingValue
  {
    match Get(root, Split(p))
    case None => field.fallback
    case Some(json) =>
      match Parsed(field.kind, json)
      case None => field.fallback
      case Some(v) => if valid(p, v) then v else field.fallback
  }

  method LoadValue(root: Members, p: string, field: Field, valid: (string, SettingValue) -> bool)
    returns (v: SettingValue)
    ensures v == LoadedValue(root, p, field, valid)
  {
    hide Get, Split, Parsed;
    v := field.fallback;
    var stored := FindPath(root, p);
    if stored.Some? {
      var read := FromJson(p, field, stored.value, valid);
      if read.Some? { v := read.value; }
    }
  }

  datatype EditableSettings = EditableSettings(
    consent: string, modelEnabled: bool, modelPath: string, backend: Option<string>, logLevel: string,
    dictionary: Option<Dictionary>, loaded: Option<Dictionary>, profiles: Option<Json>, profilesLoaded: Option<Json>,
    values: Values, clearSafeMode: bool, safeModeEnteredAt: string, apiKeyChanged: bool, apiKey: string)

  /** The paths that dedicated controls and the Host own. */
  const DEDICATED: set<Keys> := {
    ["model"], ["logLevel"], ["privacy", "crashReportConsent"], ["backendPreference"], ["dictionary"],
    ["profilesByApp"], ["safeMode"], ["openAiApiKey"]
  }

  /** No field lies on another's path or on a dedicated one. */
  ghost predicate TableOk(fields: Fields)
  {
    (forall p :: p in fields ==> Clear(Split(p), DEDICATED)) &&
    (forall p, q :: p in fields && q in fields && p != q ==> Apart(Split(p), Split(q)))
  }

  /** A switch the user changed: one that differs from what was loaded, or any if nothing was. */
  predicate Edited(s: EditableSettings, i: nat)
    requires i < SWITCHES
  {
    s.dictionary.Some? && !(s.loaded.Some? && Switch(s.dictionary.value, i) == Switch(s.loaded.value, i))
  }

  predicate WritesProfiles(s: EditableSettings) { s.profiles.Some? && s.profiles != s.profilesLoaded }

  // ----- Writing the dictionary switches -----

  ghost function SwitchesWritten(s: EditableSettings, n: nat): set<Keys>
    requires n <= SWITCHES
  {
    set i | 0 <= i < n && Edited(s, i) :: SwitchPath(i)
  }

  lemma {:induction false} SwitchesWrittenStep(s: EditableSettings, n: nat)
    requires n < SWITCHES
    ensures SwitchesWritten(s, n + 1) == SwitchesWritten(s, n) + (if Edited(s, n) then {SwitchPath(n)} else {})
  {
    hide Edited, SwitchPath;
  }

  lemma {:induction false} UntouchedSwitch(s: EditableSettings, n: nat, k: nat)
    requires n <= SWITCHES && k < SWITCHES && (n <= k || !Edited(s, k))
    ensures Clear(SwitchPath(k), SwitchesWritten(s, n))
  {
    hide Edited, Apart, SwitchPath;
    assert SwitchPath(k) != [] by { NonEmptyPath(k); }
    forall t | t in SwitchesWritten(s, n) ensures Apart(SwitchPath(k), t) {
      var i :| 0 <= i < n && Edited(s, i) && t == SwitchPath(i);
      KeysDiffer(k, i);
    }
  }

  lemma {:induction false} NonEmptyPath(k: nat)
    requires k < SWITCHES
    ensures SwitchPath(k) != []
  {
  }

  /** A switch reads as it should, and one that is not stored and not off its default stays that way. */
  ghost predicate SwitchDone(disk: Members, root: Members, s: EditableSettings, i: nat)
    requires i < SWITCHES
  {
    (ReadSwitch(root, i) == if Edited(s, i) then Switch(s.dictionary.value, i) else ReadSwitch(disk, i)) &&
    (Get(root, SwitchPath(i)).None? <==>
      Get(disk, SwitchPath(i)).None? && (Edited(s, i) ==> Switch(s.dictionary.value, i) == Switch(DEFAULTS, i)))
  }

  lemma {:induction false} FrameKeepsSwitch(disk: Members, a: Members, b: Members, s: EditableSettings, i: nat,
                                            w: set<Keys>)
    requires i < SWITCHES && SwitchDone(disk, a, s, i) && Frame(a, b, w) && Clear(SwitchPath(i), w)
    ensures SwitchDone(disk, b, s, i)
  {
    hide Get, SwitchValue;
    assert Get(b, SwitchPath(i)) == Get(a, SwitchPath(i));
  }

  /** Each changed switch becomes what the user set; the others stay as they are on disk. */
  method WriteSwitches(disk: Members, s: EditableSettings) returns (root: Members)
    ensures Frame(disk, root, SwitchesWritten(s, SWITCHES))
    ensures forall i :: 0 <= i < SWITCHES ==> SwitchDone(disk, root, s, i)
  {
    hide Edited, SwitchDone, Split, Switch, Frame;
    root := disk;
    FrameSame(disk);
    if s.dictionary.None? {
      assert forall i :: 0 <= i < SWITCHES ==> SwitchDone(disk, root, s, i) by { NothingEdited(disk, s); }
      FrameWiden(disk, root, {}, SwitchesWritten(s, SWITCHES));
      return;
    }
    FrameWiden(disk, root, {}, SwitchesWritten(s, 0));
    var i := 0;
    while i < SWITCHES
      invariant i <= SWITCHES
      invariant Frame(disk, root, SwitchesWritten(s, i))
      invariant forall k :: 0 <= k < i ==> SwitchDone(disk, root, s, k)
    {
      var value := Switch(s.dictionary.value, i);
      SwitchesWrittenStep(s, i);
      ghost var before := root;
      assert Edited(s, i) <==> !(s.loaded.Some? && value == Switch(s.loaded.value, i)) by { EditedMeans(s, i); }
      if s.loaded.Some? && value == Switch(s.loaded.value, i) {
        SwitchLeft(disk, root, s, i);
        assert SwitchesWritten(s, i + 1) == SwitchesWritten(s, i);
      } else {
        var path := "dictionary." + Key(i);
        SwitchPathSplit(i);
        var found := FindPath(root, path);
        SwitchUnread(disk, root, s, i);
        if found.Some? || value != Switch(DEFAULTS, i) {
          root := SetPath(root, path, Bool(value));
          SwitchWritten(disk, before, s, i);
          forall k | 0 <= k < i ensures SwitchDone(disk, root, s, k) { OtherSwitch(disk, before, s, i, k); }
        } else {
          SwitchInherits(disk, root, s, i);
          FrameWiden(disk, root, SwitchesWritten(s, i), SwitchesWritten(s, i + 1));
        }
      }
      i := i + 1;
    }
  }

  lemma {:induction false} FrameSame(o: Members)
    ensures Frame(o, o, {})
  {
  }

  lemma {:induction false} NothingEdited(disk: Members, s: EditableSettings)
    requires s.dictionary.None?
    ensures forall i :: 0 <= i < SWITCHES ==> SwitchDone(disk, disk, s, i)
  {
  }

  lemma {:induction false} EditedMeans(s: EditableSettings, i: nat)
    requires i < SWITCHES && s.dictionary.Some?
    ensures Edited(s, i) <==> !(s.loaded.Some? && Switch(s.dictionary.value, i) == Switch(s.loaded.value, i))
  {
  }

  lemma {:induction false} SwitchUnread(disk: Members, root: Members, s: EditableSettings, i: nat)
    requires i < SWITCHES && Frame(disk, root, SwitchesWritten(s, i))
    ensures Get(root, SwitchPath(i)) == Get(disk, SwitchPath(i))
  {
    hide Get, Edited, SwitchPath;
    UntouchedSwitch(s, i, i);
    assert Get(root, SwitchPath(i)) == Get(disk, SwitchPath(i));
  }

  lemma {:induction false} SwitchLeft(disk: Members, root: Members, s: EditableSettings, i: nat)
    requires i < SWITCHES && Frame(disk, root, SwitchesWritten(s, i)) && !Edited(s, i)
    ensures SwitchDone(disk, root, s, i)
  {
    hide Get, SwitchValue, Edited, SwitchPath;
    SwitchUnread(disk, root, s, i);
  }

  lemma {:induction false} SwitchInherits(disk: Members, root: Members, s: EditableSettings, i: nat)
    requires i < SWITCHES && Edited(s, i) && Get(root, SwitchPath(i)).None? && Get(disk, SwitchPath(i)).None? &&
             Switch(s.dictionary.value, i) == Switch(DEFAULTS, i)
    ensures SwitchDone(disk, root, s, i)
  {
    hide Get;
  }

  lemma {:induction false} SwitchWritten(disk: Members, root: Members, s: EditableSettings, i: nat)
    requires i < SWITCHES && Edited(s, i) && Frame(disk, root, SwitchesWritten(s, i))
    requires Get(disk, SwitchPath(i)).Some? || Switch(s.dictionary.value, i) != Switch(DEFAULTS, i)
    ensures var now := Put(root, SwitchPath(i), Bool(Switch(s.dictionary.value, i)));
            SwitchDone(disk, now, s, i) && Frame(disk, now, SwitchesWritten(s, i + 1))
  {
    hide Get, Put, Frame, Key;
    var v := Bool(Switch(s.dictionary.value, i));
    PutGet(root, SwitchPath(i), v);
    PutFrame(root, SwitchPath(i), v);
    FrameCompose(disk, root, Put(root, SwitchPath(i), v), SwitchesWritten(s, i), {SwitchPath(i)});
    SwitchesWrittenStep(s, i);
  }

  lemma {:induction false} OtherSwitch(disk: Members, root: Members, s: EditableSettings, i: nat, k: nat)
    requires i < SWITCHES && k < i && s.dictionary.Some? && SwitchDone(disk, root, s, k)
    ensures SwitchDone(disk, Put(root, SwitchPath(i), Bool(Switch(s.dictionary.value, i))), s, k)
  {
    hide Get, Put, Frame, SwitchDone, Apart, Switch, Key;
    var v := Bool(Switch(s.dictionary.value, i));
    KeysDiffer(k, i);
    PutFrame(root, SwitchPath(i), v);
    FrameKeepsSwitch(disk, root, Put(root, SwitchPath(i), v), s, k, {SwitchPath(i)});
  }

  // ----- Writing the generic values -----

  ghost function ValuesWritten(paths: set<string>): set<Keys> { set p | p in paths :: Split(p) }

  /** A field holds its value, or goes on inheriting it: one that is not stored stays so at its default. */
  predicate ValueDone(disk: Members, root: Members, p: string, value: SettingValue, fallback: SettingValue)
  {
    Get(root, Split(p)) == if Get(disk, Split(p)).None? && value == fallback then None else Some(ToJson(value))
  }

  lemma {:induction false} FrameKeepsValue(disk: Members, a: Members, b: Members, w: set<Keys>, p: string,
                                           value: SettingValue, fallback: SettingValue)
    requires ValueDone(disk, a, p, value, fallback) && Frame(a, b, w) && Clear(Split(p), w)
    ensures ValueDone(disk, b, p, value, fallback)
  {
    hide Get;
    assert Get(b, Split(p)) == Get(a, Split(p));
  }

  lemma {:induction false} FieldsApart(fields: Fields, p: string, q: string)
    requires TableOk(fields) && p in fields && q in fields && p != q
    ensures Clear(Split(p), {Split(q)})
  {
  }

  /** A value that is stored or inherited is what loading the field gives. */
  lemma {:induction false} DoneLoads(disk: Members, root: Members, p: string, value: SettingValue, field: Field,
                                     valid: (string, SettingValue) -> bool)
    requires ValueDone(disk, root, p, value, field.fallback) && OfKind(field.kind, value)
    requires valid(p, value) && Loadable(value)
    ensures LoadedValue(root, p, field, valid) == value
  {
    hide Get, Split;
    JsonRoundTrip(field.kind, value);
  }

  predicate Allowed(field: Field, p: string, value: SettingValue, valid: (string, SettingValue) -> bool)
  {
    OfKind(field.kind, value) && valid(p, value) && Loadable(value)
  }

  /** The value of every field given is the one loading it gives back, for any rule that allows it. */
  ghost predicate AllLoad(root: Members, fields: Fields, values: Values, valid: (string, SettingValue) -> bool)
  {
    forall p :: p in values && p in fields && Allowed(fields[p], p, values[p], valid) ==>
      LoadedValue(root, p, fields[p], valid) == values[p]
  }

  lemma {:induction false} AllDoneLoad(disk: Members, root: Members, fields: Fields, values: Values,
                                       valid: (string, SettingValue) -> bool)
    requires forall p :: p in values ==> p in fields && ValueDone(disk, root, p, values[p], fields[p].fallback)
    ensures AllLoad(root, fields, values, valid)
  {
    hide ValueDone, LoadedValue, OfKind, Loadable;
    forall p | p in values && p in fields && Allowed(fields[p], p, values[p], valid)
      ensures LoadedValue(root, p, fields[p], valid) == values[p]
    {
      DoneLoads(disk, root, p, values[p], fields[p], valid);
    }
  }

  method WriteValues(disk: Members, fields: Fields, values: Values) returns (root: Members)
    requires TableOk(fields) && values.Keys <= fields.Keys
    ensures Frame(disk, root, ValuesWritten(values.Keys))
    ensures forall p :: p in values ==> ValueDone(disk, root, p, values[p], fields[p].fallback)
    ensures forall valid :: AllLoad(root, fields, values, valid)
  {
    hide TableOk, Split, ValueDone, Frame, Get, Put, AllLoad;
    root := disk;
    FrameSame(disk);
    assert ValuesWritten({}) == {};
    var pending := values.Keys;
    ghost var done: set<string> := {};
    while pending != {}
      invariant done + pending == values.Keys && done !! pending
      invariant Frame(disk, root, ValuesWritten(done))
      invariant forall p :: p in done ==> ValueDone(disk, root, p, values[p], fields[p].fallback)
      decreases pending
    {
      var p :| p in pending;
      var found := FindPath(root, p);
      ghost var before := root;
      ValueUnread(disk, root, fields, done, p);
      if found.Some? || values[p] != fields[p].fallback {
        root := SetPath(root, p, ToJson(values[p]));
        PutFrame(before, Split(p), ToJson(values[p]));
        PutGet(before, Split(p), ToJson(values[p]));
        forall q | q in done ensures ValueDone(disk, root, q, values[q], fields[q].fallback) {
          FieldsApart(fields, q, p);
          FrameKeepsValue(disk, before, root, {Split(p)}, q, values[q], fields[q].fallback);
        }
        FrameCompose(disk, before, root, ValuesWritten(done), {Split(p)});
        assert ValuesWritten(done + {p}) == ValuesWritten(done) + {Split(p)};
      } else {
        FrameWiden(disk, root, ValuesWritten(done), ValuesWritten(done + {p}));
      }
      ValueIsDone(disk, root, p, values[p], fields[p].fallback);
      pending, done := pending - {p}, done + {p};
    }
    assert done == values.Keys;
    forall valid ensures AllLoad(root, fields, values, valid) { AllDoneLoad(disk, root, fields, values, valid); }
  }

  /** A field not written yet is as on disk. */
  lemma {:induction false} ValueUnread(disk: Members, root: Members, fields: Fields, done: set<string>, p: string)
    requires TableOk(fields) && done <= fields.Keys && p in fields && p !in done
    requires Frame(disk, root, ValuesWritten(done))
    ensures Get(root, Split(p)) == Get(disk, Split(p))
  {
    hide Get, Split, Apart;
    assert Clear(Split(p), DEDICATED);
    forall t | t in ValuesWritten(done) ensures Apart(Split(p), t) {
      var q :| q in done && t == Split(q);
    }
    assert Get(root, Split(p)) == Get(disk, Split(p));
  }

  lemma {:induction false} ValueIsDone(disk: Members, root: Members, p: string, value: SettingValue,
                                       fallback: SettingValue)
    requires if Get(disk, Split(p)).None? && value == fallback then Get(root, Split(p)).None?
             else Get(root, Split(p)) == Some(ToJson(value))
    ensures ValueDone(disk, root, p, value, fallback)
  {
  }

  // ----- Writing what dedicated controls own -----

  lemma {:induction false} PutTwo(o: Members, top: string, key: string, value: Json)
    ensures Put(o, [top, key], value) == o[top := Object(Child(o, top)[key := value])]
  {
    assert [top, key][1..] == [key];
  }

  function ModelPaths(s: EditableSettings): set<Keys>
  {
    {["model", "enabled"], ["model", "selectedPath"]} +
    (if s.backend.Some? then {["model", "backendPreference"]} else {})
  }

  predicate ModelDone(root: Members, s: EditableSettings)
  {
    Get(root, ["model", "enabled"]) == Some(Bool(s.modelEnabled)) &&
    Get(root, ["model", "selectedPath"]) == Some(String(s.modelPath)) &&
    (s.backend.Some? ==> Get(root, ["model", "backendPreference"]) == Some(String(s.backend.value)))
  }

  /** The model object keeps every member that is not edited. */
  method WriteModel(disk: Members, s: EditableSettings) returns (root: Members)
    ensures Frame(disk, root, ModelPaths(s)) && ModelDone(root, s)
  {
    hide Frame, Put, Get, ModelDone;
    var model := Child(disk, "model");
    model := model["enabled" := Bool(s.modelEnabled)];
    model := model["selectedPath" := String(s.modelPath)];
    ghost var base := model;
    if s.backend.Some? { model := model["backendPreference" := String(s.backend.value)]; }
    root := disk["model" := Object(model)];

    ghost var one := Put(disk, ["model", "enabled"], Bool(s.modelEnabled));
    ghost var two := Put(one, ["model", "selectedPath"], String(s.modelPath));
    PutTwo(disk, "model", "enabled", Bool(s.modelEnabled));
    PutTwo(one, "model", "selectedPath", String(s.modelPath));
    assert two == disk["model" := Object(base)];
    PutFrame(disk, ["model", "enabled"], Bool(s.modelEnabled));
    PutFrame(one, ["model", "selectedPath"], String(s.modelPath));
    FrameCompose(disk, one, two, {["model", "enabled"]}, {["model", "selectedPath"]});
    FrameWiden(disk, two, {["model", "enabled"]} + {["model", "selectedPath"]}, ModelPaths(s));
    if s.backend.Some? {
      PutTwo(two, "model", "backendPreference", String(s.backend.value));
      assert root == Put(two, ["model", "backendPreference"], String(s.backend.value));
      PutFrame(two, ["model", "backendPreference"], String(s.backend.value));
      FrameCompose(disk, two, root, ModelPaths(s), {["model", "backendPreference"]});
      assert ModelPaths(s) + {["model", "backendPreference"]} == ModelPaths(s);
    }
    assert ModelDone(root, s) by { ModelIsDone(disk, model, s); }
  }

  lemma {:induction false} ModelIsDone(disk: Members, model: Members, s: EditableSettings)
    requires "enabled" in model && model["enabled"] == Bool(s.modelEnabled)
    requires "selectedPath" in model && model["selectedPath"] == String(s.modelPath)
    requires s.backend.Some? ==> "backendPreference" in model && model["backendPreference"] == String(s.backend.value)
    ensures ModelDone(disk["model" := Object(model)], s)
  {
    GetTwo(disk["model" := Object(model)], "model", "enabled");
    GetTwo(disk["model" := Object(model)], "model", "selectedPath");
    GetTwo(disk["model" := Object(model)], "model", "backendPreference");
  }

  lemma {:induction false} GetTwo(o: Members, top: string, key: string)
    ensures Get(o, [top, key]) == (if key in Child(o, top) then Some(Child(o, top)[key]) else None)
  {
    assert [top, key][1..] == [key];
  }

  const SCALAR_PATHS: set<Keys> := {["logLevel"], ["privacy", "crashReportConsent"], ["backendPreference"]}

  predicate ScalarsDone(root: Members, s: EditableSettings)
  {
    Get(root, ["logLevel"]) == Some(String(s.logLevel)) &&
    Get(root, ["privacy", "crashReportConsent"]) == Some(String(s.consent)) &&
    Get(root, ["backendPreference"]).None?
  }

  /** The log level and the consent are stored; the old top-level backend preference goes. */
  method WriteScalars(disk: Members, s: EditableSettings) returns (root: Members)
    ensures Frame(disk, root, SCALAR_PATHS) && ScalarsDone(root, s)
  {
    hide Frame, Put, Get, ScalarsDone;
    root := disk["logLevel" := String(s.logLevel)];
    var privacy := Child(root, "privacy");
    privacy := privacy["crashReportConsent" := String(s.consent)];
    root := root["privacy" := Object(privacy)];
    ghost var one := Put(disk, ["logLevel"], String(s.logLevel));
    ghost var two := root;
    assert one == disk["logLevel" := String(s.logLevel)] by { PutStores(disk, ["logLevel"], String(s.logLevel)); }
    PutTwo(one, "privacy", "crashReportConsent", String(s.consent));
    PutFrame(disk, ["logLevel"], String(s.logLevel));
    PutFrame(one, ["privacy", "crashReportConsent"], String(s.consent));
    FrameCompose(disk, one, two, {["logLevel"]}, {["privacy", "crashReportConsent"]});
    root := root - {"backendPreference"};
    EraseFrame(two, "backendPreference");
    FrameCompose(disk, two, root, {["logLevel"]} + {["privacy", "crashReportConsent"]}, {["backendPreference"]});
    assert SCALAR_PATHS == {["logLevel"]} + {["privacy", "crashReportConsent"]} + {["backendPreference"]};
    assert ScalarsDone(root, s) by { ScalarsAreDone(root, s); }
  }

  lemma {:induction false} ScalarsAreDone(root: Members, s: EditableSettings)
    requires "logLevel" in root && root["logLevel"] == String(s.logLevel) && "backendPreference" !in root
    requires "crashReportConsent" in Child(root, "privacy") &&
             Child(root, "privacy")["crashReportConsent"] == String(s.consent)
    ensures ScalarsDone(root, s)
  {
    GetTwo(root, "privacy", "crashReportConsent");
  }

  lemma {:induction false} EraseFrame(o: Members, key: string)
    ensures Frame(o, o - {key}, {[key]})
  {
    forall p: Keys | Clear(p, {[key]}) ensures Get(o - {key}, p) == Get(o, p) {
      assert [key] in {[key]};
      assert p[0] == key ==> [key] <= p;
    }
  }

  // ----- Leaving SafeMode -----

  const SAFE_ENABLED: Keys := ["safeMode", "enabled"]
  const SAFE_ENTERED_AT: Keys := ["safeMode", "enteredAt"]

  function EnteredAt(root: Members): string
  {
    var stored := Get(root, SAFE_ENTERED_AT);
    if stored.Some? && stored.value.String? then stored.value.text else ""
  }

  /** The entry the user asked to leave is the one on disk. */
  predicate SameEntry(root: Members, s: EditableSettings) { EnteredAt(root) == s.safeModeEnteredAt }

  predicate AsksToLeave(root: Members, s: EditableSettings) { s.clearSafeMode && Get(root, SAFE_ENABLED).Some? }

  function SafeAfter(disk: Members, s: EditableSettings): Option<Json>
  {
    if AsksToLeave(disk, s) && SameEntry(disk, s) then Some(Bool(false)) else Get(disk, SAFE_ENABLED)
  }

  lemma {:induction false} SafePaths()
    ensures Split("safeMode.enabled") == SAFE_ENABLED && Split("safeMode.enteredAt") == SAFE_ENTERED_AT
  {
    hide Split, NoDot;
    assert NoDot("safeMode") && NoDot("enabled") && NoDot("enteredAt") by { SafeKeys(); }
    SplitJoin(SAFE_ENABLED);
    SplitJoin(SAFE_ENTERED_AT);
    assert SAFE_ENABLED[1..] == ["enabled"] && SAFE_ENTERED_AT[1..] == ["enteredAt"];
    assert Join(SAFE_ENABLED) == "safeMode.enabled" && Join(SAFE_ENTERED_AT) == "safeMode.enteredAt";
  }

  lemma {:induction false} SafeKeys()
    ensures NoDot("safeMode") && NoDot("enabled") && NoDot("enteredAt")
  {
  }

  /** Clears the flag only for the entry the user saw; another entry is reported, not cleared. */
  method ClearSafeMode(disk: Members, s: EditableSettings) returns (root: Members, reentered: bool)
    ensures Frame(disk, root, {SAFE_ENABLED}) && Get(root, SAFE_ENABLED) == SafeAfter(disk, s)
    ensures reentered <==> AsksToLeave(disk, s) && !SameEntry(disk, s)
    ensures !(AsksToLeave(disk, s) && SameEntry(disk, s)) ==> root == disk
  {
    hide Frame, Put, Get, Split;
    root, reentered := disk, false;
    SafePaths();
    FrameSame(disk);
    FrameWiden(disk, disk, {}, {SAFE_ENABLED});
    if s.clearSafeMode {
      var enabled := FindPath(root, "safeMode.enabled");
      if enabled.Some? {
        var enteredAt := FindPath(root, "safeMode.enteredAt");
        var current := if enteredAt.Some? && enteredAt.value.String? then enteredAt.value.text else "";
        if current == s.safeModeEnteredAt {
          root := SetPath(root, "safeMode.enabled", Bool(false));
          PutGet(disk, SAFE_ENABLED, Bool(false));
          PutFrame(disk, SAFE_ENABLED, Bool(false));
        } else {
          reentered := true;
        }
      }
    }
  }

  // ----- The API key -----

  const API_KEY_PATH: Keys := ["openAiApiKey"]

  predicate Protected(text: string) { text == "" || "dpapi:" <= text }

  /** A key stored as it was typed. */
  predicate Plain(stored: Option<Json>) { stored.Some? && stored.value.String? && !Protected(stored.value.text) }

  ghost predicate ProtectsAll(protect: string -> Option<string>)
  {
    forall key: string :: protect(key).Some? ==> "dpapi:" <= protect(key).value
  }

  /** The text that has to be protected before it is stored. */
  function ToProtect(disk: Members, s: EditableSettings): Option<string>
  {
    if s.apiKeyChanged then (if s.apiKey == "" then None else Some(s.apiKey))
    else if Plain(Get(disk, API_KEY_PATH)) then Some(Get(disk, API_KEY_PATH).value.text) else None
  }

  /** Fails exactly when a key that has to be protected cannot be. */
  method WriteApiKey(disk: Members, s: EditableSettings, protect: string -> Option<string>) returns (r: Option<Members>)
    ensures r.None? <==> ToProtect(disk, s).Some? && protect(ToProtect(disk, s).value).None?
    ensures r.Some? ==> Frame(disk, r.value, {API_KEY_PATH})
    ensures r.Some? && ToProtect(disk, s).Some? ==>
      Get(r.value, API_KEY_PATH) == Some(String(protect(ToProtect(disk, s).value).value))
    ensures r.Some? && ToProtect(disk, s).None? ==>
      Get(r.value, API_KEY_PATH) == (if s.apiKeyChanged then Some(String("")) else Get(disk, API_KEY_PATH))
    ensures r.Some? && ProtectsAll(protect) ==> !Plain(Get(r.value, API_KEY_PATH))
  {
    hide Frame, ProtectsAll;
    FrameSame(disk);
    FrameWiden(disk, disk, {}, {API_KEY_PATH});
    if s.apiKeyChanged {
      if s.apiKey == "" {
        KeyStored(disk, "");
        return Some(disk["openAiApiKey" := String("")]);
      }
      var sealed := protect(s.apiKey);
      if sealed.None? { return None; }
      KeyStored(disk, sealed.value);
      assert ProtectsAll(protect) ==> Protected(sealed.value) by { Sealed(protect, s.apiKey); }
      return Some(disk["openAiApiKey" := String(sealed.value)]);
    } else if "openAiApiKey" in disk && disk["openAiApiKey"].String? && disk["openAiApiKey"].text != "" &&
              !("dpapi:" <= disk["openAiApiKey"].text) {
      var sealed := protect(disk["openAiApiKey"].text);
      if sealed.None? { return None; }
      KeyStored(disk, sealed.value);
      assert ProtectsAll(protect) ==> Protected(sealed.value) by { Sealed(protect, disk["openAiApiKey"].text); }
      return Some(disk["openAiApiKey" := String(sealed.value)]);
    }
    return Some(disk);
  }

  lemma {:induction false} Sealed(protect: string -> Option<string>, key: string)
    requires protect(key).Some?
    ensures ProtectsAll(protect) ==> Protected(protect(key).value)
  {
  }

  lemma {:induction false} KeyStored(disk: Members, text: string)
    ensures var root := disk["openAiApiKey" := String(text)];
            Frame(disk, root, {API_KEY_PATH}) && Get(root, API_KEY_PATH) == Some(String(text))
  {
    PutFrame(disk, API_KEY_PATH, String(text));
    PutStores(disk, API_KEY_PATH, String(text));
  }

  // ----- Which writes can meet which paths -----

  ghost predicate Under(w: set<Keys>, tops: set<string>) { forall t :: t in w ==> t != [] && t[0] in tops }

  lemma {:induction false} ClearOfTops(p: Keys, w: set<Keys>, tops: set<string>)
    requires Under(w, tops) && p != [] && p[0] !in tops
    ensures Clear(p, w)
  {
    forall t | t in w ensures Apart(p, t) { assert t[0] in tops; }
  }

  lemma {:induction false} ApartBelow(a: Keys, d: Keys, p: Keys)
    requires Apart(a, d) && d <= p
    ensures Apart(a, p)
  {
    assert a <= p ==> (if |a| <= |d| then a <= d else d <= a);
  }

  /** A dedicated path is clear of every generic write. */
  lemma {:induction false} ClearOfValues(fields: Fields, paths: set<string>, d: Keys, p: Keys)
    requires TableOk(fields) && paths <= fields.Keys && d in DEDICATED && d <= p && p != []
    ensures Clear(p, ValuesWritten(paths))
  {
    hide Split, Apart;
    forall t | t in ValuesWritten(paths) ensures Apart(p, t) {
      var q :| q in paths && t == Split(q);
      assert Clear(Split(q), DEDICATED);
      ApartBelow(Split(q), d, p);
      ApartSwap(Split(q), p);
    }
  }

  lemma {:induction false} ApartSwap(a: Keys, b: Keys)
    ensures Apart(a, b) <==> Apart(b, a)
  {
  }

  /** A generic path is clear of what is written below a dedicated one. */
  lemma {:induction false} ValueClear(fields: Fields, q: string, d: Keys, p: Keys)
    requires TableOk(fields) && q in fields && d in DEDICATED && d <= p
    ensures Clear(Split(q), {p})
  {
    hide Split, Apart;
    assert Clear(Split(q), DEDICATED);
    ApartBelow(Split(q), d, p);
  }

  /** Every path written is a dedicated one or below one. */
  ghost predicate Dedicated(w: set<Keys>) { forall t :: t in w ==> exists d :: d in DEDICATED && d <= t }

  lemma {:induction false} ValueClearOf(fields: Fields, q: string, w: set<Keys>)
    requires TableOk(fields) && q in fields && Dedicated(w)
    ensures Clear(Split(q), w)
  {
    hide Split, Apart;
    assert Clear(Split(q), DEDICATED);
    forall t | t in w ensures Apart(Split(q), t) {
      var d :| d in DEDICATED && d <= t;
      ApartBelow(Split(q), d, t);
    }
  }

  lemma {:induction false} EarlyDedicated(s: EditableSettings)
    ensures Dedicated(BeforeValues(s))
  {
    hide Key, Edited;
    DedicatedTops();
    hide DEDICATED;
    forall t | t in BeforeValues(s) ensures exists d :: d in DEDICATED && d <= t {
      if t in ModelPaths(s) {
        assert ["model"] <= t;
      } else if t in SCALAR_PATHS {
        assert t <= t && t in DEDICATED;
      } else if t in SwitchesWritten(s, SWITCHES) {
        assert ["dictionary"] <= t;
      } else {
        assert ["profilesByApp"] <= t;
      }
    }
  }

  lemma {:induction false} ClearUnion(p: Keys, v: set<Keys>, w: set<Keys>)
    requires Clear(p, v) && Clear(p, w)
    ensures Clear(p, v + w)
  {
  }

  ghost function ProfilesWritten(s: EditableSettings): set<Keys>
  {
    if WritesProfiles(s) then {["profilesByApp"]} else {}
  }

  const LATE_WRITTEN: set<Keys> := {SAFE_ENABLED} + {API_KEY_PATH}

  ghost function FromValues(s: EditableSettings): set<Keys> { ValuesWritten(s.values.Keys) + LATE_WRITTEN }

  ghost function FromProfiles(s: EditableSettings): set<Keys> { ProfilesWritten(s) + FromValues(s) }

  ghost function FromSwitches(s: EditableSettings): set<Keys> { SwitchesWritten(s, SWITCHES) + FromProfiles(s) }

  ghost function FromScalars(s: EditableSettings): set<Keys> { SCALAR_PATHS + FromSwitches(s) }

  /** Every path a save may write. */
  ghost function Written(s: EditableSettings): set<Keys> { ModelPaths(s) + FromScalars(s) }

  lemma {:induction false} WrittenTops(s: EditableSettings)
    ensures Under(ModelPaths(s), {"model"}) && Under(SCALAR_PATHS, {"logLevel", "privacy", "backendPreference"})
    ensures Under(SwitchesWritten(s, SWITCHES), {"dictionary"}) && Under(ProfilesWritten(s), {"profilesByApp"})
    ensures Under(LATE_WRITTEN, {"safeMode", "openAiApiKey"})
  {
  }

  /** A path below a dedicated one is clear of the later writes that start with another key. */
  lemma {:induction false} ClearFromValues(s: EditableSettings, fields: Fields, d: Keys, p: Keys)
    requires TableOk(fields) && s.values.Keys <= fields.Keys && d in DEDICATED && d <= p && p != []
    requires p[0] !in {"safeMode", "openAiApiKey"}
    ensures Clear(p, FromValues(s))
    ensures p[0] != "profilesByApp" ==> Clear(p, FromProfiles(s))
    ensures p[0] != "profilesByApp" && p[0] != "dictionary" ==> Clear(p, FromSwitches(s))
    ensures p[0] !in {"profilesByApp", "dictionary", "logLevel", "privacy", "backendPreference"} ==>
      Clear(p, FromScalars(s))
  {
    hide TableOk, Clear, Under, Split, ModelPaths, SwitchesWritten, ProfilesWritten, ValuesWritten, DEDICATED;
    hide LATE_WRITTEN, SCALAR_PATHS;
    WrittenTops(s);
    ClearOfValues(fields, s.values.Keys, d, p);
    ClearOfTops(p, LATE_WRITTEN, {"safeMode", "openAiApiKey"});
    ClearUnion(p, ValuesWritten(s.values.Keys), LATE_WRITTEN);
    if p[0] != "profilesByApp" {
      ClearOfTops(p, ProfilesWritten(s), {"profilesByApp"});
      ClearUnion(p, ProfilesWritten(s), FromValues(s));
      if p[0] != "dictionary" {
        ClearOfTops(p, SwitchesWritten(s, SWITCHES), {"dictionary"});
        ClearUnion(p, SwitchesWritten(s, SWITCHES), FromProfiles(s));
        if p[0] !in {"logLevel", "privacy", "backendPreference"} {
          ClearOfTops(p, SCALAR_PATHS, {"logLevel", "privacy", "backendPreference"});
          ClearUnion(p, SCALAR_PATHS, FromSwitches(s));
        }
      }
    }
  }

  // ----- A whole save -----

  /** The document after each part of a save. */
  datatype Stages = Stages(disk: Members, model: Members, scalars: Members, switches: Members, profiles: Members,
                           values: Members, safe: Members, last: Members)

  ghost predicate Chain(t: Stages, s: EditableSettings, fields: Fields)
  {
    Frame(t.disk, t.model, ModelPaths(s)) && Frame(t.model, t.scalars, SCALAR_PATHS) &&
    Frame(t.scalars, t.switches, SwitchesWritten(s, SWITCHES)) && Frame(t.switches, t.profiles, ProfilesWritten(s)) &&
    Frame(t.profiles, t.values, ValuesWritten(s.values.Keys)) && Frame(t.values, t.safe, {SAFE_ENABLED}) &&
    Frame(t.safe, t.last, {API_KEY_PATH}) && TableOk(fields) && s.values.Keys <= fields.Keys
  }

  lemma {:induction false} ChainAfter(t: Stages, s: EditableSettings, fields: Fields)
    requires Chain(t, s, fields)
    ensures Frame(t.values, t.last, LATE_WRITTEN) && Frame(t.profiles, t.last, FromValues(s))
    ensures Frame(t.switches, t.last, FromProfiles(s)) && Frame(t.scalars, t.last, FromSwitches(s))
    ensures Frame(t.model, t.last, FromScalars(s)) && Frame(t.disk, t.last, Written(s))
  {
    hide Frame, TableOk, ModelPaths, SCALAR_PATHS, SwitchesWritten, ProfilesWritten, ValuesWritten;
    FrameCompose(t.values, t.safe, t.last, {SAFE_ENABLED}, {API_KEY_PATH});
    FrameCompose(t.profiles, t.values, t.last, ValuesWritten(s.values.Keys), LATE_WRITTEN);
    FrameCompose(t.switches, t.profiles, t.last, ProfilesWritten(s), FromValues(s));
    FrameCompose(t.scalars, t.switches, t.last, SwitchesWritten(s, SWITCHES), FromProfiles(s));
    FrameCompose(t.model, t.scalars, t.last, SCALAR_PATHS, FromSwitches(s));
    FrameCompose(t.disk, t.model, t.last, ModelPaths(s), FromScalars(s));
  }

  ghost function BeforeSwitches(s: EditableSettings): set<Keys> { ModelPaths(s) + SCALAR_PATHS }

  ghost function BeforeValues(s: EditableSettings): set<Keys>
  {
    BeforeSwitches(s) + SwitchesWritten(s, SWITCHES) + ProfilesWritten(s)
  }

  ghost function BeforeSafe(s: EditableSettings): set<Keys> { BeforeValues(s) + ValuesWritten(s.values.Keys) }

  lemma {:induction false} ChainBefore(t: Stages, s: EditableSettings, fields: Fields)
    requires Chain(t, s, fields)
    ensures Frame(t.disk, t.scalars, BeforeSwitches(s)) && Frame(t.disk, t.profiles, BeforeValues(s))
    ensures Frame(t.disk, t.values, BeforeSafe(s))
  {
    hide Frame, TableOk, ModelPaths, SCALAR_PATHS, SwitchesWritten, ProfilesWritten, ValuesWritten;
    FrameCompose(t.disk, t.model, t.scalars, ModelPaths(s), SCALAR_PATHS);
    FrameCompose(t.disk, t.scalars, t.switches, BeforeSwitches(s), SwitchesWritten(s, SWITCHES));
    FrameCompose(t.disk, t.switches, t.profiles, BeforeSwitches(s) + SwitchesWritten(s, SWITCHES), ProfilesWritten(s));
    FrameCompose(t.disk, t.profiles, t.values, BeforeValues(s), ValuesWritten(s.values.Keys));
  }

  /** The Host's paths and the key are still as on disk when a save comes to them. */
  lemma {:induction false} ClearBefore(s: EditableSettings, fields: Fields, d: Keys, p: Keys)
    requires TableOk(fields) && s.values.Keys <= fields.Keys && d in DEDICATED && d <= p && p != []
    requires p[0] !in {"model", "logLevel", "privacy", "backendPreference"}
    ensures Clear(p, BeforeSwitches(s))
    ensures p[0] !in {"dictionary", "profilesByApp"} ==> Clear(p, BeforeSafe(s))
  {
    hide TableOk, Clear, Under, Split, ModelPaths, SwitchesWritten, ProfilesWritten, ValuesWritten, DEDICATED;
    hide SCALAR_PATHS;
    WrittenTops(s);
    ClearOfTops(p, ModelPaths(s), {"model"});
    ClearOfTops(p, SCALAR_PATHS, {"logLevel", "privacy", "backendPreference"});
    ClearUnion(p, ModelPaths(s), SCALAR_PATHS);
    if p[0] !in {"dictionary", "profilesByApp"} {
      ClearOfTops(p, SwitchesWritten(s, SWITCHES), {"dictionary"});
      ClearOfTops(p, ProfilesWritten(s), {"profilesByApp"});
      ClearOfValues(fields, s.values.Keys, d, p);
      ClearUnion(p, BeforeSwitches(s), SwitchesWritten(s, SWITCHES));
      ClearUnion(p, BeforeSwitches(s) + SwitchesWritten(s, SWITCHES), ProfilesWritten(s));
      ClearUnion(p, BeforeValues(s), ValuesWritten(s.values.Keys));
    }
  }

  lemma {:induction false} Unwritten(a: Members, b: Members, w: set<Keys>, p: Keys)
    requires Frame(a, b, w) && Clear(p, w)
    ensures p != [] && Get(b, p) == Get(a, p)
  {
    hide Get;
    assert Get(b, p) == Get(a, p);
  }

  /** A path below a dedicated one reads at the end as it did at the stage it was written in. */
  lemma {:induction false} ReadsOn(t: Stages, s: EditableSettings, fields: Fields, d: Keys, p: Keys)
    requires Chain(t, s, fields) && d in DEDICATED && d <= p && p != [] && p[0] !in {"safeMode", "openAiApiKey"}
    ensures Get(t.last, p) == Get(t.profiles, p)
    ensures p[0] != "profilesByApp" ==> Get(t.last, p) == Get(t.switches, p)
    ensures p[0] != "profilesByApp" && p[0] != "dictionary" ==> Get(t.last, p) == Get(t.scalars, p)
    ensures p[0] == "model" ==> Get(t.last, p) == Get(t.model, p)
  {
    hide Get, Clear, Frame, FromValues, FromProfiles, FromSwitches, FromScalars, Written, DEDICATED, TableOk;
    ChainAfter(t, s, fields);
    ClearFromValues(s, fields, d, p);
    Unwritten(t.profiles, t.last, FromValues(s), p);
    if p[0] != "profilesByApp" { Unwritten(t.switches, t.last, FromProfiles(s), p); }
    if p[0] != "profilesByApp" && p[0] != "dictionary" { Unwritten(t.scalars, t.last, FromSwitches(s), p); }
    if p[0] == "model" { Unwritten(t.model, t.last, FromScalars(s), p); }
  }

  lemma {:induction false} DedicatedTops()
    ensures {["model"], ["logLevel"], ["backendPreference"], ["dictionary"], ["profilesByApp"], ["safeMode"],
            ["openAiApiKey"]} <= DEDICATED
    ensures ["privacy", "crashReportConsent"] in DEDICATED
  {
  }

  lemma {:induction false} ScalarsLast(t: Stages, s: EditableSettings, fields: Fields)
    requires Chain(t, s, fields) && ModelDone(t.model, s) && ScalarsDone(t.scalars, s)
    ensures ModelDone(t.last, s) && ScalarsDone(t.last, s)
  {
    hide Get, Chain, DEDICATED;
    DedicatedTops();
    ReadsOn(t, s, fields, ["model"], ["model", "enabled"]);
    ReadsOn(t, s, fields, ["model"], ["model", "selectedPath"]);
    ReadsOn(t, s, fields, ["model"], ["model", "backendPreference"]);
    ReadsOn(t, s, fields, ["logLevel"], ["logLevel"]);
    ReadsOn(t, s, fields, ["privacy", "crashReportConsent"], ["privacy", "crashReportConsent"]);
    ReadsOn(t, s, fields, ["backendPreference"], ["backendPreference"]);
  }

  lemma {:induction false} SwitchLast(t: Stages, s: EditableSettings, fields: Fields, i: nat)
    requires Chain(t, s, fields) && i < SWITCHES && SwitchDone(t.scalars, t.switches, s, i)
    ensures SwitchDone(t.disk, t.last, s, i)
  {
    hide Get, Clear, Frame, DEDICATED, TableOk, SwitchValue, Key;
    DedicatedTops();
    var p := SwitchPath(i);
    ReadsOn(t, s, fields, ["dictionary"], p);
    ChainBefore(t, s, fields);
    ClearBefore(s, fields, ["dictionary"], p);
    Unwritten(t.disk, t.scalars, BeforeSwitches(s), p);
  }

  lemma {:induction false} ValueLast(t: Stages, s: EditableSettings, fields: Fields, q: string)
    requires Chain(t, s, fields) && q in s.values
    requires ValueDone(t.profiles, t.values, q, s.values[q], fields[q].fallback)
    ensures ValueDone(t.disk, t.last, q, s.values[q], fields[q].fallback)
  {
    hide Get, Clear, Frame, DEDICATED, TableOk, Split, BeforeValues, Dedicated;
    DedicatedTops();
    ChainAfter(t, s, fields);
    ValueClear(fields, q, ["safeMode"], SAFE_ENABLED);
    ValueClear(fields, q, ["openAiApiKey"], API_KEY_PATH);
    ClearUnion(Split(q), {SAFE_ENABLED}, {API_KEY_PATH});
    Unwritten(t.values, t.last, LATE_WRITTEN, Split(q));
    ChainBefore(t, s, fields);
    EarlyDedicated(s);
    ValueClearOf(fields, q, BeforeValues(s));
    Unwritten(t.disk, t.profiles, BeforeValues(s), Split(q));
  }

  lemma {:induction false} EditsLast(t: Stages, s: EditableSettings, fields: Fields)
    requires Chain(t, s, fields) && forall i :: 0 <= i < SWITCHES ==> SwitchDone(t.scalars, t.switches, s, i)
    requires forall p :: p in s.values ==> ValueDone(t.profiles, t.values, p, s.values[p], fields[p].fallback)
    ensures forall i :: 0 <= i < SWITCHES ==> SwitchDone(t.disk, t.last, s, i)
    ensures forall p :: p in s.values ==> ValueDone(t.disk, t.last, p, s.values[p], fields[p].fallback)
  {
    hide SwitchDone, ValueDone, Frame, TableOk, SwitchesWritten, ValuesWritten;
    forall i | 0 <= i < SWITCHES ensures SwitchDone(t.disk, t.last, s, i) { SwitchLast(t, s, fields, i); }
    forall p | p in s.values ensures ValueDone(t.disk, t.last, p, s.values[p], fields[p].fallback) {
      ValueLast(t, s, fields, p);
    }
  }

  lemma {:induction false} SafeLast(t: Stages, s: EditableSettings, fields: Fields)
    requires Chain(t, s, fields) && Get(t.safe, SAFE_ENABLED) == SafeAfter(t.values, s)
    ensures Get(t.last, SAFE_ENABLED) == SafeAfter(t.disk, s) && EnteredAt(t.last) == EnteredAt(t.disk)
    ensures AsksToLeave(t.values, s) == AsksToLeave(t.disk, s) && SameEntry(t.values, s) == SameEntry(t.disk, s)
  {
    hide Get, Frame, DEDICATED, TableOk;
    DedicatedTops();
    ChainBefore(t, s, fields);
    ClearBefore(s, fields, ["safeMode"], SAFE_ENABLED);
    ClearBefore(s, fields, ["safeMode"], SAFE_ENTERED_AT);
    Unwritten(t.disk, t.values, BeforeSafe(s), SAFE_ENABLED);
    Unwritten(t.disk, t.values, BeforeSafe(s), SAFE_ENTERED_AT);
    Unwritten(t.values, t.safe, {SAFE_ENABLED}, SAFE_ENTERED_AT);
    Unwritten(t.safe, t.last, {API_KEY_PATH}, SAFE_ENABLED);
    Unwritten(t.safe, t.last, {API_KEY_PATH}, SAFE_ENTERED_AT);
  }

  lemma {:induction false} KeyAsOnDisk(t: Stages, s: EditableSettings, fields: Fields)
    requires Chain(t, s, fields)
    ensures Get(t.safe, API_KEY_PATH) == Get(t.disk, API_KEY_PATH)
  {
    hide Get, Frame, DEDICATED, TableOk;
    DedicatedTops();
    ChainBefore(t, s, fields);
    ClearBefore(s, fields, ["openAiApiKey"], API_KEY_PATH);
    Unwritten(t.disk, t.values, BeforeSafe(s), API_KEY_PATH);
    Unwritten(t.values, t.safe, {SAFE_ENABLED}, API_KEY_PATH);
  }

  // ----- What is refused -----

  datatype Problem = BadConsent | BadBackend | BadLogLevel | BadSetting(path: string) | BadProfiles | KeyNotProtected

  predicate ValueOk(fields: Fields, valid: (string, SettingValue) -> bool, p: string, v: SettingValue)
  {
    p in fields && OfKind(fields[p].kind, v) && valid(p, v)
  }

  predicate Acceptable(s: EditableSettings, fields: Fields, valid: (string, SettingValue) -> bool,
                       profilesOk: Json -> bool)
  {
    s.consent in {"off", "local"} && (s.backend.Some? ==> s.backend.value in {"auto", "cpu"}) &&
    s.logLevel in {"error", "warn", "info", "debug"} &&
    (forall p :: p in s.values ==> ValueOk(fields, valid, p, s.values[p])) &&
    (WritesProfiles(s) ==> profilesOk(s.profiles.value))
  }

  method Validate(s: EditableSettings, fields: Fields, valid: (string, SettingValue) -> bool, profilesOk: Json -> bool)
    returns (problem: Option<Problem>)
    ensures problem.None? <==> Acceptable(s, fields, valid, profilesOk)
    ensures problem.Some? && problem.value.BadSetting? ==>
      problem.value.path in s.values && !ValueOk(fields, valid, problem.value.path, s.values[problem.value.path])
  {
    hide OfKind;
    if s.consent != "off" && s.consent != "local" { return Some(BadConsent); }
    if s.backend.Some? && s.backend.value != "auto" && s.backend.value != "cpu" { return Some(BadBackend); }
    if s.logLevel != "error" && s.logLevel != "warn" && s.logLevel != "info" && s.logLevel != "debug" {
      return Some(BadLogLevel);
    }
    problem := ValidateRest(s, fields, valid, profilesOk);
  }

  method ValidateRest(s: EditableSettings, fields: Fields, valid: (string, SettingValue) -> bool,
                      profilesOk: Json -> bool) returns (problem: Option<Problem>)
    ensures problem.None? <==> (forall p :: p in s.values ==> ValueOk(fields, valid, p, s.values[p])) &&
                               (WritesProfiles(s) ==> profilesOk(s.profiles.value))
    ensures problem.Some? ==> problem.value.BadSetting? || problem.value.BadProfiles?
    ensures problem.Some? && problem.value.BadSetting? ==>
      problem.value.path in s.values && !ValueOk(fields, valid, problem.value.path, s.values[problem.value.path])
  {
    hide OfKind;
    var pending := s.values.Keys;
    while pending != {}
      invariant pending <= s.values.Keys
      invariant forall p :: p in s.values && p !in pending ==> ValueOk(fields, valid, p, s.values[p])
      decreases pending
    {
      var p :| p in pending;
      if p !in fields || !OfKind(fields[p].kind, s.values[p]) || !valid(p, s.values[p]) { return Some(BadSetting(p)); }
      pending := pending - {p};
    }
    if s.profiles.Some? && s.profiles != s.profilesLoaded && !profilesOk(s.profiles.value) { return Some(BadProfiles); }
    return None;
  }

  datatype SaveResult = Rejected(problem: Problem) | Saved(root: Members, reentered: bool)

  /**
    The merge: refused exactly for an invalid setting or a key that cannot be protected; otherwise
    every edit reads back from the new document, and every path apart from those written holds
    what it held on disk.
   */
  method SaveSettingsDocument(disk: Members, s: EditableSettings, fields: Fields, valid: (string, SettingValue) -> bool,
                              profilesOk: Json -> bool, protect: string -> Option<string>) returns (r: SaveResult)
    requires TableOk(fields)
    ensures r.Rejected? <==> !Acceptable(s, fields, valid, profilesOk) ||
                             (ToProtect(disk, s).Some? && protect(ToProtect(disk, s).value).None?)
    ensures r.Saved? ==> Frame(disk, r.root, Written(s))
    ensures r.Saved? ==> forall i :: 0 <= i < SWITCHES ==> SwitchDone(disk, r.root, s, i)
    ensures r.Saved? ==> forall p :: p in s.values ==>
      p in fields && ValueDone(disk, r.root, p, s.values[p], fields[p].fallback)
    ensures r.Saved? ==> forall p :: p in s.values && p in fields && Loadable(s.values[p]) ==>
      LoadedValue(r.root, p, fields[p], valid) == s.values[p]
    ensures r.Saved? ==> ModelDone(r.root, s) && ScalarsDone(r.root, s)
    ensures r.Saved? && WritesProfiles(s) ==> Get(r.root, ["profilesByApp"]) == s.profiles
    ensures r.Saved? ==> Get(r.root, SAFE_ENABLED) == SafeAfter(disk, s) && EnteredAt(r.root) == EnteredAt(disk)
    ensures r.Saved? ==> (r.reentered <==> AsksToLeave(disk, s) && !SameEntry(disk, s))
    ensures r.Saved? && ProtectsAll(protect) ==> !Plain(Get(r.root, API_KEY_PATH))
  {
    hide Frame, TableOk, Get, Put, ModelDone, ScalarsDone, SwitchDone, ValueDone, ToProtect, Plain;
    hide LoadedValue, AllLoad, OfKind, Loadable;
    hide ProtectsAll, ModelPaths, SafeAfter;
    hide AsksToLeave, SameEntry, EnteredAt, SwitchesWritten, ValuesWritten, Written;
    var problem := Validate(s, fields, valid, profilesOk);
    if problem.Some? { return Rejected(problem.value); }
    assert s.values.Keys <= fields.Keys;
    var model := WriteModel(disk, s);
    var scalars := WriteScalars(model, s);
    var switches := WriteSwitches(scalars, s);
    var profiles := switches;
    if WritesProfiles(s) { profiles := switches["profilesByApp" := s.profiles.value]; }
    ProfilesFrame(switches, profiles, s);
    var values := WriteValues(profiles, fields, s.values);
    var safe, reentered := ClearSafeMode(values, s);
    var sealed := WriteApiKey(safe, s, protect);
    ghost var t := Stages(disk, model, scalars, switches, profiles, values, safe,
                          if sealed.Some? then sealed.value else safe);
    FrameSame(safe);
    FrameWiden(safe, safe, {}, {API_KEY_PATH});
    assert Chain(t, s, fields);
    KeyAsOnDisk(t, s, fields);
    SameKeySameText(disk, safe, s);
    if sealed.None? { return Rejected(KeyNotProtected); }
    ChainAfter(t, s, fields);
    ScalarsLast(t, s, fields);
    SafeLast(t, s, fields);
    EditsLast(t, s, fields);
    EditsLoad(disk, t.last, s, fields, valid, profilesOk);
    DedicatedTops();
    ReadsOn(t, s, fields, ["profilesByApp"], ["profilesByApp"]);
    return Saved(sealed.value, reentered);
  }

  lemma {:induction false} EditsLoad(disk: Members, root: Members, s: EditableSettings, fields: Fields,
                                     valid: (string, SettingValue) -> bool, profilesOk: Json -> bool)
    requires Acceptable(s, fields, valid, profilesOk)
    requires forall p :: p in s.values ==> p in fields && ValueDone(disk, root, p, s.values[p], fields[p].fallback)
    ensures forall p :: p in s.values && p in fields && Loadable(s.values[p]) ==>
      LoadedValue(root, p, fields[p], valid) == s.values[p]
  {
    hide ValueDone, LoadedValue, OfKind, Loadable;
    AllDoneLoad(disk, root, fields, s.values, valid);
    forall p | p in s.values && p in fields && Loadable(s.values[p])
      ensures LoadedValue(root, p, fields[p], valid) == s.values[p]
    {
      assert ValueOk(fields, valid, p, s.values[p]);
    }
  }

  lemma {:induction false} SameKeySameText(a: Members, b: Members, s: EditableSettings)
    requires Get(a, API_KEY_PATH) == Get(b, API_KEY_PATH)
    ensures ToProtect(a, s) == ToProtect(b, s)
  {
  }

  lemma {:induction false} ProfilesFrame(before: Members, after: Members, s: EditableSettings)
    requires after == if WritesProfiles(s) then before["profilesByApp" := s.profiles.value] else before
    ensures Frame(before, after, ProfilesWritten(s))
    ensures WritesProfiles(s) ==> Get(after, ["profilesByApp"]) == s.profiles
  {
    FrameSame(before);
    if WritesProfiles(s) {
      PutFrame(before, ["profilesByApp"], s.profiles.value);
      PutStores(before, ["profilesByApp"], s.profiles.value);
    }
  }

  /** The user's value where it differs from what was loaded, else the one on disk. */
  function ThreeWay(base: Members, disk: Members, edited: Dictionary, i: nat): bool
    requires i < SWITCHES
  {
    if Switch(edited, i) != ReadSwitch(base, i) then Switch(edited, i) else ReadSwitch(disk, i)
  }

  /**
    The three-way merge of the switches: loaded from `base`, edited, and saved over a document that
    others have meanwhile made into `disk`. The user's changes win; everything else is theirs.
   */
  method EditSwitches(base: Members, disk: Members, edited: Dictionary, s: EditableSettings, fields: Fields,
                      valid: (string, SettingValue) -> bool, profilesOk: Json -> bool,
                      protect: string -> Option<string>)
    returns (r: SaveResult)
    requires TableOk(fields)
    ensures r.Saved? ==> forall i :: 0 <= i < SWITCHES ==>
      ReadSwitch(r.root, i) == ThreeWay(base, disk, edited, i)
  {
    hide TableOk, Acceptable, Frame, Written, ReadSwitch, Switch;
    var loaded := ExtractDictionarySettings(base);
    var mine := s.(dictionary := Some(edited), loaded := Some(loaded));
    r := SaveSettingsDocument(disk, mine, fields, valid, profilesOk, protect);
    if r.Saved? {
      forall i | 0 <= i < SWITCHES
        ensures ReadSwitch(r.root, i) == ThreeWay(base, disk, edited, i)
      {
        assert SwitchDone(disk, r.root, mine, i);
      }
    }
  }
}
