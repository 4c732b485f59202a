/**
 The user configuration (`config.json`) and the list-mode selection of the
 library. Every field of the stored object is optional: a missing field takes
 its default value, while a field that is present must have the right shape.
 Fields the configuration does not know are ignored. As serde allows, the
 fields may also be stored as an array, in the order they are declared, and
 an enum field may be written as its variant's name or in the externally
 tagged form. The JSON text itself is read by a parser outside this model;
 decoding starts from the parsed value.
 */
module Config {
  import opened Common
  import opened FileSystem
  import opened Merge

  datatype ListType = Whitelist | Blacklist
  datatype ServiceType = Nfqws | Nfqws2
  datatype ApplistType = NoAppList | AppBlacklist | AppWhitelist

  datatype Config = Config(
    serviceType: ServiceType,
    activeLists: seq<string>,
    activeIpsets: seq<string>,
    activeExcludeLists: seq<string>,
    activeExcludeIpsets: seq<string>,
    listType: ListType,
    strategy: string,
    strategyNfqws2: string,
    appList: ApplistType,
    whitelist: seq<string>,
    blacklist: seq<string>)

  /** `Config::default()`: every list and both strategies empty, whitelist
      mode, the first engine, no application list. */
  const DEFAULT: Config := Config(Nfqws, [], [], [], [], Whitelist, "", "", NoAppList, [], [])

  /** A parsed JSON value. */
  datatype Json =
    | JNull
    | JBool(b: bool)
    | JNumber(n: int)
    | JString(s: string)
    | JArray(items: seq<Json>)
    | JObject(fields: map<string, Json>)

  /** The keys of the stored object, in lowercase as serialised. */
  const FIELD_NAMES: set<string> := {
    "service_type", "active_lists", "active_ipsets", "active_exclude_lists",
    "active_exclude_ipsets", "list_type", "strategy", "strategy_nfqws2",
    "app_list", "whitelist", "blacklist"}

  // ------------------------------------------------------------ values

  function DecodeString(j: Json): Option<string> {
    if j.JString? then Some(j.s) else None
  }

  predicate AllStrings(items: seq<Json>) {
    forall i :: 0 <= i < |items| ==> items[i].JString?
  }

  function Strings(items: seq<Json>): (r: seq<string>)
    requires AllStrings(items)
    ensures |r| == |items| && forall i :: 0 <= i < |items| ==> items[i] == JString(r[i])
  {
    if items == [] then [] else [items[0].s] + Strings(items[1..])
  }

  function EncodeStrings(ss: seq<string>): (items: seq<Json>)
    ensures |items| == |ss| && forall i :: 0 <= i < |ss| ==> items[i] == JString(ss[i])
  {
    if ss == [] then [] else [JString(ss[0])] + EncodeStrings(ss[1..])
  }

  /** A `Vec<String>`: an array of strings and nothing else. */
  function DecodeStrings(j: Json): Option<seq<string>> {
    if j.JArray? && AllStrings(j.items) then Some(Strings(j.items)) else None
  }

  lemma DecodeEncodeStrings(ss: seq<string>)
    ensures DecodeStrings(JArray(EncodeStrings(ss))) == Some(ss)
  {
    var items := EncodeStrings(ss);
    assert AllStrings(items);
    var back := Strings(items);
    assert |back| == |ss| && forall i :: 0 <= i < |ss| ==> back[i] == ss[i];
    assert back == ss;
  }

  /** The externally tagged form of a unit variant: an object whose only key
      is the variant's name and whose value is null. */
  function TaggedUnit(name: string): Json {
    JObject(map[name := JNull])
  }

  /** A derived `Deserialize` of an enum reads a unit variant from its name
      as a string, or from its externally tagged form; an unknown name, a
      second key or a non-null value is an error, and so is every other
      JSON value. */
  predicate NamesUnit(j: Json, name: string) {
    j == JString(name) || j == TaggedUnit(name)
  }

  lemma DecodeEncodeEnums(t: ListType, st: ServiceType, a: ApplistType)
    ensures DecodeListType(EncodeListType(t)) == Some(t)
    ensures DecodeServiceType(EncodeServiceType(st)) == Some(st)
    ensures DecodeApplistType(EncodeApplistType(a)) == Some(a)
  {
  }

  /** Each enum decodes to a variant exactly from that variant's name, as a
      string or in the externally tagged form, and from nothing else. */
  lemma EnumForms(j: Json, t: ListType, st: ServiceType, a: ApplistType)
    ensures DecodeListType(j) == Some(t) <==> j == EncodeListType(t) || j == TaggedUnit(EncodeListType(t).s)
    ensures DecodeServiceType(j) == Some(st) <==> j == EncodeServiceType(st) || j == TaggedUnit(EncodeServiceType(st).s)
    ensures DecodeApplistType(j) == Some(a) <==> j == EncodeApplistType(a) || j == TaggedUnit(EncodeApplistType(a).s)
  {
    ListTypeForms(j, t);
    ServiceTypeForms(j, st);
    ApplistForms(j, a);
  }

  lemma ListTypeForms(j: Json, t: ListType)
    ensures DecodeListType(j) == Some(t) <==> j == EncodeListType(t) || j == TaggedUnit(EncodeListType(t).s)
  {
    TaggedUnitsDiffer("whitelist", "blacklist");
  }

  lemma ServiceTypeForms(j: Json, t: ServiceType)
    ensures DecodeServiceType(j) == Some(t) <==> j == EncodeServiceType(t) || j == TaggedUnit(EncodeServiceType(t).s)
  {
    TaggedUnitsDiffer("nfqws", "nfqws2");
  }

  lemma ApplistForms(j: Json, a: ApplistType)
    ensures DecodeApplistType(j) == Some(a) <==> j == EncodeApplistType(a) || j == TaggedUnit(EncodeApplistType(a).s)
  {
    TaggedUnitsDiffer("none", "blacklist");
    TaggedUnitsDiffer("none", "whitelist");
    TaggedUnitsDiffer("blacklist", "whitelist");
  }

  lemma TaggedUnitsDiffer(x: string, y: string)
    requires x != y
    ensures TaggedUnit(x) != TaggedUnit(y) && TaggedUnit(x) != JString(y)
  {
    assert x in TaggedUnit(x).fields && x !in TaggedUnit(y).fields;
  }

  function DecodeListType(j: Json): Option<ListType> {
    if NamesUnit(j, "whitelist") then Some(Whitelist)
    else if NamesUnit(j, "blacklist") then Some(Blacklist)
    else None
  }

  function EncodeListType(t: ListType): Json {
    match t
    case Whitelist => JString("whitelist")
    case Blacklist => JString("blacklist")
  }

  function DecodeServiceType(j: Json): Option<ServiceType> {
    if NamesUnit(j, "nfqws") then Some(Nfqws)
    else if NamesUnit(j, "nfqws2") then Some(Nfqws2)
    else None
  }

  function EncodeServiceType(t: ServiceType): Json {
    match t
    case Nfqws => JString("nfqws")
    case Nfqws2 => JString("nfqws2")
  }

  function DecodeApplistType(j: Json): Option<ApplistType> {
    if NamesUnit(j, "none") then Some(NoAppList)
    else if NamesUnit(j, "blacklist") then Some(AppBlacklist)
    else if NamesUnit(j, "whitelist") then Some(AppWhitelist)
    else None
  }

  function EncodeApplistType(t: ApplistType): Json {
    match t
    case NoAppList => JString("none")
    case AppBlacklist => JString("blacklist")
    case AppWhitelist => JString("whitelist")
  }

  // ------------------------------------------------------------ fields

  /** The value stored for each field, if any, before it is decoded. serde
      fills a struct from an object by key and from an array by position, in
      the order the fields are declared. */
  datatype Slots = Slots(
    serviceType: Option<Json>,
    activeLists: Option<Json>,
    activeIpsets: Option<Json>,
    activeExcludeLists: Option<Json>,
    activeExcludeIpsets: Option<Json>,
    listType: Option<Json>,
    strategy: Option<Json>,
    strategyNfqws2: Option<Json>,
    appList: Option<Json>,
    whitelist: Option<Json>,
    blacklist: Option<Json>)

  /** The number of fields, and so the longest array a `Config` is read from. */
  const FIELD_COUNT: nat := 11

  function Get(o: map<string, Json>, key: string): Option<Json> {
    if key in o then Some(o[key]) else None
  }

  function At(items: seq<Json>, i: nat): Option<Json> {
    if i < |items| then Some(items[i]) else None
  }

  function ObjectSlots(o: map<string, Json>): Slots {
    Slots(Get(o, "service_type"), Get(o, "active_lists"), Get(o, "active_ipsets"),
          Get(o, "active_exclude_lists"), Get(o, "active_exclude_ipsets"), Get(o, "list_type"),
          Get(o, "strategy"), Get(o, "strategy_nfqws2"), Get(o, "app_list"),
          Get(o, "whitelist"), Get(o, "blacklist"))
  }

  /** Element `i` of the array stands for the `i`-th declared field. */
  function ArraySlots(items: seq<Json>): Slots {
    Slots(At(items, 0), At(items, 1), At(items, 2), At(items, 3), At(items, 4), At(items, 5),
          At(items, 6), At(items, 7), At(items, 8), At(items, 9), At(items, 10))
  }

  /** A field: its decoded value, its default when absent, or nothing when
      present with the wrong shape. */
  function StringsField(v: Option<Json>): Option<seq<string>> {
    if v.Some? then DecodeStrings(v.value) else Some([])
  }

  function StringField(v: Option<Json>): Option<string> {
    if v.Some? then DecodeString(v.value) else Some("")
  }

  function ListTypeField(v: Option<Json>): Option<ListType> {
    if v.Some? then DecodeListType(v.value) else Some(Whitelist)
  }

  function ServiceTypeField(v: Option<Json>): Option<ServiceType> {
    if v.Some? then DecodeServiceType(v.value) else Some(Nfqws)
  }

  function ApplistField(v: Option<Json>): Option<ApplistType> {
    if v.Some? then DecodeApplistType(v.value) else Some(NoAppList)
  }

  /** Decoding every field from its slot under `#[serde(default)]`. */
  function DecodeSlots(s: Slots): Option<Config> {
    var st := ServiceTypeField(s.serviceType);
    var al := StringsField(s.activeLists);
    var ai := StringsField(s.activeIpsets);
    var ael := StringsField(s.activeExcludeLists);
    var aei := StringsField(s.activeExcludeIpsets);
    var lt := ListTypeField(s.listType);
    var sg := StringField(s.strategy);
    var sg2 := StringField(s.strategyNfqws2);
    var ap := ApplistField(s.appList);
    var wl := StringsField(s.whitelist);
    var bl := StringsField(s.blacklist);
    if st.Some? && al.Some? && ai.Some? && ael.Some? && aei.Some? && lt.Some? && sg.Some?
       && sg2.Some? && ap.Some? && wl.Some? && bl.Some?
    then Some(Config(st.value, al.value, ai.value, ael.value, aei.value, lt.value,
                     sg.value, sg2.value, ap.value, wl.value, bl.value))
    else None
  }

  /** Deserialising the stored value into a `Config` under `#[serde(default)]`:
      from an object by key, or from an array of at most one element per
      field by position (elements left off take their default; one element
      too many is an error). Any other value is an error. */
  function DecodeConfig(j: Json): Option<Config> {
    match j
    case JObject(o) => DecodeSlots(ObjectSlots(o))
    case JArray(items) => if |items| <= FIELD_COUNT then DecodeSlots(ArraySlots(items)) else None
    case _ => None
  }

  /** Serialising a `Config`: every field, under its lowercase key. */
  function EncodeConfig(c: Config): (j: Json)
    ensures j.JObject?
  {
    JObject(map[
      "service_type" := EncodeServiceType(c.serviceType),
      "active_lists" := JArray(EncodeStrings(c.activeLists)),
      "active_ipsets" := JArray(EncodeStrings(c.activeIpsets)),
      "active_exclude_lists" := JArray(EncodeStrings(c.activeExcludeLists)),
      "active_exclude_ipsets" := JArray(EncodeStrings(c.activeExcludeIpsets)),
      "list_type" := EncodeListType(c.listType),
      "strategy" := JString(c.strategy),
      "strategy_nfqws2" := JString(c.strategyNfqws2),
      "app_list" := EncodeApplistType(c.appList),
      "whitelist" := JArray(EncodeStrings(c.whitelist)),
      "blacklist" := JArray(EncodeStrings(c.blacklist))])
  }

  /** Every field is written, under its key, and nothing else. */
  lemma EncodeWritesEveryField(c: Config)
    ensures EncodeConfig(c).fields.Keys == FIELD_NAMES
  {
  }

  lemma EncodedLookups(c: Config)
    ensures var o := EncodeConfig(c).fields;
      && o["service_type"] == EncodeServiceType(c.serviceType)
      && o["active_lists"] == JArray(EncodeStrings(c.activeLists))
      && o["active_ipsets"] == JArray(EncodeStrings(c.activeIpsets))
      && o["active_exclude_lists"] == JArray(EncodeStrings(c.activeExcludeLists))
      && o["active_exclude_ipsets"] == JArray(EncodeStrings(c.activeExcludeIpsets))
      && o["list_type"] == EncodeListType(c.listType)
      && o["strategy"] == JString(c.strategy)
      && o["strategy_nfqws2"] == JString(c.strategyNfqws2)
      && o["app_list"] == EncodeApplistType(c.appList)
      && o["whitelist"] == JArray(EncodeStrings(c.whitelist))
      && o["blacklist"] == JArray(EncodeStrings(c.blacklist))
  {
    EncodedListLookups(c);
    EncodedExcludeLookups(c);
    EncodedHostLookups(c);
    EncodedOtherLookups(c);
  }

  lemma EncodedListLookups(c: Config)
    ensures var o := EncodeConfig(c).fields;
      && o["active_lists"] == JArray(EncodeStrings(c.activeLists))
      && o["active_ipsets"] == JArray(EncodeStrings(c.activeIpsets))
  {
  }

  lemma EncodedExcludeLookups(c: Config)
    ensures var o := EncodeConfig(c).fields;
      && o["active_exclude_lists"] == JArray(EncodeStrings(c.activeExcludeLists))
      && o["active_exclude_ipsets"] == JArray(EncodeStrings(c.activeExcludeIpsets))
  {
  }

  lemma EncodedHostLookups(c: Config)
    ensures var o := EncodeConfig(c).fields;
      && o["whitelist"] == JArray(EncodeStrings(c.whitelist))
      && o["blacklist"] == JArray(EncodeStrings(c.blacklist))
  {
  }

  lemma EncodedOtherLookups(c: Config)
    ensures var o := EncodeConfig(c).fields;
      && o["service_type"] == EncodeServiceType(c.serviceType)
      && o["list_type"] == EncodeListType(c.listType)
      && o["strategy"] == JString(c.strategy)
      && o["strategy_nfqws2"] == JString(c.strategyNfqws2)
      && o["app_list"] == EncodeApplistType(c.appList)
  {
  }

  /** What is written is read back unchanged. */
  lemma DecodeEncode(c: Config)
    ensures DecodeConfig(EncodeConfig(c)) == Some(c)
  {
    ObjectAndArrayAgree(c);
    DecodeEncodePositional(c);
  }

  /** An empty object is the default configuration. */
  lemma EmptyObjectIsDefault()
    ensures DecodeConfig(JObject(map[])) == Some(DEFAULT)
  {
  }

  /** The reading of a list mode written in the externally tagged form:
      `{"list_type": {"blacklist": null}}` is the default configuration in
      blacklist mode. */
  lemma TaggedListMode()
    ensures DecodeConfig(JObject(map["list_type" := TaggedUnit("blacklist")])) == Some(DEFAULT.(listType := Blacklist))
  {
    TaggedUnitsDiffer("blacklist", "whitelist");
  }

  /** An enum field written in its externally tagged form reads as the same
      field written as a string, in every stored object. */
  lemma TaggedFieldAgrees(o: map<string, Json>, name: string)
    ensures DecodeConfig(JObject(o["list_type" := TaggedUnit(name)]))
         == DecodeConfig(JObject(o["list_type" := JString(name)]))
    ensures DecodeConfig(JObject(o["service_type" := TaggedUnit(name)]))
         == DecodeConfig(JObject(o["service_type" := JString(name)]))
    ensures DecodeConfig(JObject(o["app_list" := TaggedUnit(name)]))
         == DecodeConfig(JObject(o["app_list" := JString(name)]))
  {
    TaggedAsString(name);
    EnumFieldAgrees(o, TaggedUnit(name), JString(name));
  }

  /** Two values an enum field reads alike, stored under its key, give the
      same configuration. */
  lemma EnumFieldAgrees(o: map<string, Json>, a: Json, b: Json)
    ensures DecodeListType(a) == DecodeListType(b) ==>
      DecodeConfig(JObject(o["list_type" := a])) == DecodeConfig(JObject(o["list_type" := b]))
    ensures DecodeServiceType(a) == DecodeServiceType(b) ==>
      DecodeConfig(JObject(o["service_type" := a])) == DecodeConfig(JObject(o["service_type" := b]))
    ensures DecodeApplistType(a) == DecodeApplistType(b) ==>
      DecodeConfig(JObject(o["app_list" := a])) == DecodeConfig(JObject(o["app_list" := b]))
  {
    if DecodeListType(a) == DecodeListType(b) {
      ListTypeKeyAgrees(o, a, b);
    }
    if DecodeServiceType(a) == DecodeServiceType(b) {
      ServiceTypeKeyAgrees(o, a, b);
    }
    if DecodeApplistType(a) == DecodeApplistType(b) {
      ApplistKeyAgrees(o, a, b);
    }
  }

  lemma ListTypeKeyAgrees(o: map<string, Json>, a: Json, b: Json)
    requires DecodeListType(a) == DecodeListType(b)
    ensures DecodeConfig(JObject(o["list_type" := a])) == DecodeConfig(JObject(o["list_type" := b]))
  {
    EnumKeySlots(o, a);
    EnumKeySlots(o, b);
    var s := ObjectSlots(o);
    SameFieldSameDecode(s.(listType := Some(a)), s.(listType := Some(b)));
  }

  lemma ServiceTypeKeyAgrees(o: map<string, Json>, a: Json, b: Json)
    requires DecodeServiceType(a) == DecodeServiceType(b)
    ensures DecodeConfig(JObject(o["service_type" := a])) == DecodeConfig(JObject(o["service_type" := b]))
  {
    EnumKeySlots(o, a);
    EnumKeySlots(o, b);
    var s := ObjectSlots(o);
    SameFieldSameDecode(s.(serviceType := Some(a)), s.(serviceType := Some(b)));
  }

  lemma ApplistKeyAgrees(o: map<string, Json>, a: Json, b: Json)
    requires DecodeApplistType(a) == DecodeApplistType(b)
    ensures DecodeConfig(JObject(o["app_list" := a])) == DecodeConfig(JObject(o["app_list" := b]))
  {
    EnumKeySlots(o, a);
    EnumKeySlots(o, b);
    var s := ObjectSlots(o);
    SameFieldSameDecode(s.(appList := Some(a)), s.(appList := Some(b)));
  }

  /** Two slot records whose every field reads alike give the same
      configuration. */
  lemma SameFieldSameDecode(x: Slots, y: Slots)
    requires ServiceTypeField(x.serviceType) == ServiceTypeField(y.serviceType)
    requires ListTypeField(x.listType) == ListTypeField(y.listType)
    requires ApplistField(x.appList) == ApplistField(y.appList)
    requires x.activeLists == y.activeLists && x.activeIpsets == y.activeIpsets
    requires x.activeExcludeLists == y.activeExcludeLists && x.activeExcludeIpsets == y.activeExcludeIpsets
    requires x.strategy == y.strategy && x.strategyNfqws2 == y.strategyNfqws2
    requires x.whitelist == y.whitelist && x.blacklist == y.blacklist
    ensures DecodeSlots(x) == DecodeSlots(y)
  {
  }

  /** Setting an enum field's key fills only that field's slot. */
  lemma EnumKeySlots(o: map<string, Json>, v: Json)
    ensures ObjectSlots(o["list_type" := v]) == ObjectSlots(o).(listType := Some(v))
    ensures ObjectSlots(o["service_type" := v]) == ObjectSlots(o).(serviceType := Some(v))
    ensures ObjectSlots(o["app_list" := v]) == ObjectSlots(o).(appList := Some(v))
  {
  }

  /** Each decoder reads the tagged form of a name as it reads the name. */
  lemma TaggedAsString(name: string)
    ensures DecodeListType(TaggedUnit(name)) == DecodeListType(JString(name))
    ensures DecodeServiceType(TaggedUnit(name)) == DecodeServiceType(JString(name))
    ensures DecodeApplistType(TaggedUnit(name)) == DecodeApplistType(JString(name))
  {
    forall other: string | other != name
      ensures TaggedUnit(name) != TaggedUnit(other)
    {
      TaggedUnitsDiffer(name, other);
    }
  }

  /** The fields of the configuration, by the key each is stored under. */
  datatype Field =
    | ServiceTypeKey | ActiveListsKey | ActiveIpsetsKey | ActiveExcludeListsKey
    | ActiveExcludeIpsetsKey | ListTypeKey | StrategyKey | StrategyNfqws2Key
    | AppListKey | WhitelistKey | BlacklistKey

  function Key(f: Field): (k: string)
    ensures k in FIELD_NAMES
  {
    match f
    case ServiceTypeKey => "service_type"
    case ActiveListsKey => "active_lists"
    case ActiveIpsetsKey => "active_ipsets"
    case ActiveExcludeListsKey => "active_exclude_lists"
    case ActiveExcludeIpsetsKey => "active_exclude_ipsets"
    case ListTypeKey => "list_type"
    case StrategyKey => "strategy"
    case StrategyNfqws2Key => "strategy_nfqws2"
    case AppListKey => "app_list"
    case WhitelistKey => "whitelist"
    case BlacklistKey => "blacklist"
  }

  /** `c` with field `f` set back to its default. */
  function ResetField(c: Config, f: Field): Config {
    match f
    case ServiceTypeKey => c.(serviceType := DEFAULT.serviceType)
    case ActiveListsKey => c.(activeLists := DEFAULT.activeLists)
    case ActiveIpsetsKey => c.(activeIpsets := DEFAULT.activeIpsets)
    case ActiveExcludeListsKey => c.(activeExcludeLists := DEFAULT.activeExcludeLists)
    case ActiveExcludeIpsetsKey => c.(activeExcludeIpsets := DEFAULT.activeExcludeIpsets)
    case ListTypeKey => c.(listType := DEFAULT.listType)
    case StrategyKey => c.(strategy := DEFAULT.strategy)
    case StrategyNfqws2Key => c.(strategyNfqws2 := DEFAULT.strategyNfqws2)
    case AppListKey => c.(appList := DEFAULT.appList)
    case WhitelistKey => c.(whitelist := DEFAULT.whitelist)
    case BlacklistKey => c.(blacklist := DEFAULT.blacklist)
  }

  /** Dropping a field from a valid object never makes decoding fail: that
      field takes its default and every other field keeps its value. */
  lemma AbsentFieldTakesDefault(o: map<string, Json>, f: Field)
    requires DecodeConfig(JObject(o)).Some?
    ensures DecodeConfig(JObject(o - {Key(f)})) == Some(ResetField(DecodeConfig(JObject(o)).value, f))
  {
    RemovedKeySlot(o, f);
    ClearedSlotTakesDefault(ObjectSlots(o), f);
  }

  /** Removing a field's key empties exactly its slot. */
  lemma RemovedKeySlot(o: map<string, Json>, f: Field)
    ensures ObjectSlots(o - {Key(f)}) == ClearSlot(ObjectSlots(o), f)
  {
    KnownFieldsBesides(o, Key(f));
  }

  /** Removing `key` leaves every other known field as it was. */
  lemma KnownFieldsBesides(o: map<string, Json>, key: string)
    ensures forall k | k in FIELD_NAMES && k != key ::
      (k in o - {key} <==> k in o) && (k in o ==> (o - {key})[k] == o[k])
  {
  }

  /** Keys the configuration does not know are ignored. */
  lemma UnknownFieldIgnored(o: map<string, Json>, key: string, v: Json)
    requires key !in FIELD_NAMES
    ensures DecodeConfig(JObject(o[key := v])) == DecodeConfig(JObject(o))
  {
    var o' := o[key := v];
    assert forall k :: k in FIELD_NAMES ==> (k in o' <==> k in o) && (k in o ==> o'[k] == o[k]);
  }

  /** A known field set to `null` is an error, not a default. */
  lemma NullFieldFails(o: map<string, Json>, key: string)
    requires key in FIELD_NAMES
    ensures DecodeConfig(JObject(o[key := JNull])) == None
  {
  }

  /** Only an object or an array can be a configuration. */
  lemma ScalarFails(j: Json)
    requires !j.JObject? && !j.JArray?
    ensures DecodeConfig(j) == None
  {
  }

  // ------------------------------------------------------------ array form

  /** The fields in the order they are declared. */
  const FIELD_ORDER: seq<Field> := [
    ServiceTypeKey, ActiveListsKey, ActiveIpsetsKey, ActiveExcludeListsKey,
    ActiveExcludeIpsetsKey, ListTypeKey, StrategyKey, StrategyNfqws2Key,
    AppListKey, WhitelistKey, BlacklistKey]

  lemma FieldOrderListsEveryField(f: Field)
    ensures |FIELD_ORDER| == FIELD_COUNT && f in FIELD_ORDER
  {
  }

  /** A `Config` as an array: the values the object form stores, in the
      order the fields are declared. */
  function EncodePositional(c: Config): (items: seq<Json>)
    ensures |items| == FIELD_COUNT
  {
    [EncodeServiceType(c.serviceType), JArray(EncodeStrings(c.activeLists)),
     JArray(EncodeStrings(c.activeIpsets)), JArray(EncodeStrings(c.activeExcludeLists)),
     JArray(EncodeStrings(c.activeExcludeIpsets)), EncodeListType(c.listType),
     JString(c.strategy), JString(c.strategyNfqws2), EncodeApplistType(c.appList),
     JArray(EncodeStrings(c.whitelist)), JArray(EncodeStrings(c.blacklist))]
  }

  /** The object and the array form of a `Config` hold the same value for
      every field. */
  lemma ObjectAndArrayAgree(c: Config)
    ensures ObjectSlots(EncodeConfig(c).fields) == ArraySlots(EncodePositional(c))
  {
    EncodeWritesEveryField(c);
    EncodedLookups(c);
  }

  /** The array form is read back unchanged too. */
  lemma DecodeEncodePositional(c: Config)
    ensures DecodeConfig(JArray(EncodePositional(c))) == Some(c)
  {
    assert ArraySlots(EncodePositional(c)) == EncodedSlots(c);
    DecodeEncodedSlots(c);
  }

  /** The slots of a written `Config`: every field holds its encoding. */
  function EncodedSlots(c: Config): Slots {
    Slots(Some(EncodeServiceType(c.serviceType)), Some(JArray(EncodeStrings(c.activeLists))),
          Some(JArray(EncodeStrings(c.activeIpsets))), Some(JArray(EncodeStrings(c.activeExcludeLists))),
          Some(JArray(EncodeStrings(c.activeExcludeIpsets))), Some(EncodeListType(c.listType)),
          Some(JString(c.strategy)), Some(JString(c.strategyNfqws2)), Some(EncodeApplistType(c.appList)),
          Some(JArray(EncodeStrings(c.whitelist))), Some(JArray(EncodeStrings(c.blacklist))))
  }

  lemma DecodeEncodedSlots(c: Config)
    ensures DecodeSlots(EncodedSlots(c)) == Some(c)
  {
    DecodeEncodeStrings(c.activeLists);
    DecodeEncodeStrings(c.activeIpsets);
    DecodeEncodeStrings(c.activeExcludeLists);
    DecodeEncodeStrings(c.activeExcludeIpsets);
    DecodeEncodeStrings(c.whitelist);
    DecodeEncodeStrings(c.blacklist);
    DecodeEncodeEnums(c.listType, c.serviceType, c.appList);
  }

  /** An empty array is the default configuration. */
  lemma EmptyArrayIsDefault()
    ensures DecodeConfig(JArray([])) == Some(DEFAULT)
  {
  }

  /** An array with more elements than there are fields is an error. */
  lemma LongArrayFails(items: seq<Json>)
    requires |items| > FIELD_COUNT
    ensures DecodeConfig(JArray(items)) == None
  {
  }

  /** Leaving off the last element of a valid array never makes decoding fail:
      the field it stood for takes its default, every other field keeps its
      value. */
  lemma ShorterArrayTakesDefault(items: seq<Json>)
    requires 0 < |items| && DecodeConfig(JArray(items)).Some?
    ensures DecodeConfig(JArray(items[..|items| - 1]))
         == Some(ResetField(DecodeConfig(JArray(items)).value, FIELD_ORDER[|items| - 1]))
  {
    var n := |items| - 1;
    DroppedSlot(items);
    ClearedSlotTakesDefault(ArraySlots(items), FIELD_ORDER[n]);
  }

  /** `s` without a value for field `f`. */
  function ClearSlot(s: Slots, f: Field): Slots {
    match f
    case ServiceTypeKey => s.(serviceType := None)
    case ActiveListsKey => s.(activeLists := None)
    case ActiveIpsetsKey => s.(activeIpsets := None)
    case ActiveExcludeListsKey => s.(activeExcludeLists := None)
    case ActiveExcludeIpsetsKey => s.(activeExcludeIpsets := None)
    case ListTypeKey => s.(listType := None)
    case StrategyKey => s.(strategy := None)
    case StrategyNfqws2Key => s.(strategyNfqws2 := None)
    case AppListKey => s.(appList := None)
    case WhitelistKey => s.(whitelist := None)
    case BlacklistKey => s.(blacklist := None)
  }

  /** Dropping the last element of an array empties exactly its slot. */
  lemma DroppedSlot(items: seq<Json>)
    requires 0 < |items| <= FIELD_COUNT
    ensures ArraySlots(items[..|items| - 1]) == ClearSlot(ArraySlots(items), FIELD_ORDER[|items| - 1])
  {
    var n := |items| - 1;
    assert forall i: nat | i != n :: At(items[..n], i) == At(items, i);
    assert At(items[..n], n) == None;
  }

  /** A slot with no value decodes to the field's default; the others are untouched. */
  lemma ClearedSlotTakesDefault(s: Slots, f: Field)
    requires DecodeSlots(s).Some?
    ensures DecodeSlots(ClearSlot(s, f)) == Some(ResetField(DecodeSlots(s).value, f))
  {
  }

  // ------------------------------------------------------- list-mode selection

  /** The lists a mode merges, where the merged files go, and the engine flags
      that point at them. */
  datatype Selection = Selection(
    hostFiles: seq<string>, ipsetFiles: seq<string>,
    hostPath: string, ipsetPath: string,
    hostFlag: string, ipsetFlag: string)

  const TMP_DIR: string := MODULE_PATH + "/tmp"

  /** The name of the file, inside the workspace, a mode merges its host
      lists into (`host_suffix`). */
  function HostSuffix(t: ListType): string {
    match t
    case Whitelist => "hostlist"
    case Blacklist => "hostlist-exclude"
  }

  /** The same for the ipset lists (`ipset_suffix`). */
  function IpsetSuffix(t: ListType): string {
    match t
    case Whitelist => "ipset"
    case Blacklist => "ipset-exclude"
  }

  /** What the flag names carry in each mode (`exclude_flag`). */
  function ExcludeFlag(t: ListType): string {
    match t
    case Whitelist => ""
    case Blacklist => "-exclude"
  }

  /** The choice `ListType::merge` makes before merging. */
  function Select(t: ListType, c: Config): Selection {
    var (hostFiles, ipsetFiles) := Group(t, c);
    Selection(
      hostFiles, ipsetFiles,
      JoinPath(MODULE_PATH, "tmp/" + HostSuffix(t)), JoinPath(MODULE_PATH, "tmp/" + IpsetSuffix(t)),
      "--hostlist" + ExcludeFlag(t) + "=" + MODULE_PATH + "/tmp/" + HostSuffix(t),
      "--ipset" + ExcludeFlag(t) + "=" + MODULE_PATH + "/tmp/" + IpsetSuffix(t))
  }

  /** The group of lists a mode reads, as a pair (host lists, ipset lists). */
  function Group(t: ListType, c: Config): (seq<string>, seq<string>) {
    match t
    case Whitelist => (c.activeLists, c.activeIpsets)
    case Blacklist => (c.activeExcludeLists, c.activeExcludeIpsets)
  }

  /** A mode reads exactly one group: two configurations that agree on that
      group select the same files and the same flags, whatever the other
      group holds. */
  lemma SelectReadsOnlyItsGroup(t: ListType, c: Config, d: Config)
    requires Group(t, c) == Group(t, d)
    ensures Select(t, c) == Select(t, d)
  {
  }

  lemma SelectFilesAreGroup(t: ListType, c: Config)
    ensures (Select(t, c).hostFiles, Select(t, c).ipsetFiles) == Group(t, c)
  {
  }

  lemma TmpDirShape()
    ensures |TMP_DIR| > 1 && TMP_DIR[0] == '/' && TMP_DIR[|TMP_DIR| - 1] != '/'
    ensures |MODULE_PATH| > 0 && MODULE_PATH[|MODULE_PATH| - 1] != '/'
  {
    assert MODULE_PATH[0] == '/' && MODULE_PATH[|MODULE_PATH| - 1] == 't';
    assert TMP_DIR[|TMP_DIR| - 1] == 'p';
  }

  /** A name under `tmp/` of the module directory is a direct child of the
      workspace. */
  lemma WorkspaceChild(name: string)
    requires |name| > 0 && '/' !in name
    ensures JoinPath(MODULE_PATH, "tmp/" + name) == TMP_DIR + "/" + name
    ensures DirName(TMP_DIR + "/" + name) == TMP_DIR && Inside(TMP_DIR + "/" + name, TMP_DIR)
  {
    TmpDirShape();
    var m := MODULE_PATH;
    assert "/" + ("tmp/" + name) == "/tmp" + "/" + name;
    assert m + "/" + ("tmp/" + name) == m + "/tmp" + "/" + name;
    DirNameOfJoin(TMP_DIR, name);
    assert (TMP_DIR + "/" + name)[..|TMP_DIR|] == TMP_DIR;
  }

  /** The merged files' names: non-empty, free of '/', and told apart by
      their first letter. */
  lemma SuffixNames(t: ListType)
    ensures |HostSuffix(t)| > 0 && '/' !in HostSuffix(t) && HostSuffix(t)[0] == 'h'
    ensures |IpsetSuffix(t)| > 0 && '/' !in IpsetSuffix(t) && IpsetSuffix(t)[0] == 'i'
  {
  }

  /** Both merged files live directly in the workspace directory, under the
      mode's names, and they are different files. */
  lemma SelectPathsInWorkspace(t: ListType, c: Config)
    ensures Select(t, c).hostPath == TMP_DIR + "/" + HostSuffix(t)
    ensures Select(t, c).ipsetPath == TMP_DIR + "/" + IpsetSuffix(t)
    ensures DirName(Select(t, c).hostPath) == TMP_DIR && Inside(Select(t, c).hostPath, TMP_DIR)
    ensures DirName(Select(t, c).ipsetPath) == TMP_DIR && Inside(Select(t, c).ipsetPath, TMP_DIR)
    ensures Select(t, c).hostPath != Select(t, c).ipsetPath
  {
    SuffixNames(t);
    WorkspaceChild(HostSuffix(t));
    WorkspaceChild(IpsetSuffix(t));
    var h := TMP_DIR + "/" + HostSuffix(t);
    var i := TMP_DIR + "/" + IpsetSuffix(t);
    assert h[|TMP_DIR| + 1] == 'h' && i[|TMP_DIR| + 1] == 'i';
  }

  /** Each flag names exactly the file its merge writes, and the names carry
      `-exclude` exactly in blacklist mode. */
  lemma FlagsNameMergedFiles(t: ListType, c: Config)
    ensures var s := Select(t, c);
      var sfx := if t == Blacklist then "-exclude" else "";
      && s.hostFlag == "--hostlist" + sfx + "=" + s.hostPath
      && s.ipsetFlag == "--ipset" + sfx + "=" + s.ipsetPath
  {
    SelectPathsInWorkspace(t, c);
    FlagOfWorkspaceFile("--hostlist" + ExcludeFlag(t) + "=", HostSuffix(t));
    FlagOfWorkspaceFile("--ipset" + ExcludeFlag(t) + "=", IpsetSuffix(t));
  }

  /** A flag spelled with the module path and "/tmp/" names the workspace file. */
  lemma FlagOfWorkspaceFile(flag: string, name: string)
    ensures flag + MODULE_PATH + "/tmp/" + name == flag + (TMP_DIR + "/" + name)
  {
    assert "/tmp" + "/" == "/tmp/";
    assert flag + MODULE_PATH + "/tmp/" + name == flag + (MODULE_PATH + "/tmp" + "/" + name);
  }

  // ----------------------------------------------------------- the merge step

  /** `ListType::merge`: merge the host lists, then the ipset lists, each with
      the streaming merger; a failed merge panics. */
  function MergeLists(fs: FileSystem, t: ListType, c: Config): (r: (FileSystem, Outcome<(string, string)>))
    ensures !r.1.Done? ==> r.1 == Panicked(UNWRAP_PANIC)
    ensures var s := Select(t, c);
      var host := MergeStreaming(fs, s.hostFiles, s.hostPath);
      r.1.Done? <==> host.result.Ok? && MergeStreaming(host.fs, s.ipsetFiles, s.ipsetPath).result.Ok?
    ensures r.1.Done? ==> r.1.value == (Select(t, c).hostFlag, Select(t, c).ipsetFlag)
  {
    var s := Select(t, c);
    var host := MergeStreaming(fs, s.hostFiles, s.hostPath);
    if host.result.Err? then (host.fs, Panicked(UNWRAP_PANIC))
    else
      var ipset := MergeStreaming(host.fs, s.ipsetFiles, s.ipsetPath);
      if ipset.result.Err? then (ipset.fs, Panicked(UNWRAP_PANIC))
      else (ipset.fs, Done((s.hostFlag, s.ipsetFlag)))
  }

  /** With the workspace in place and every list readable, both merged files
      hold their group's concatenation and the flags come back. */
  lemma MergeListsSuccess(fs: FileSystem, t: ListType, c: Config)
    requires TMP_DIR in fs.dirs
    requires var s := Select(t, c);
      && s.hostPath !in fs.dirs && s.ipsetPath !in fs.dirs
      && AllFiles(fs, s.hostFiles) && AllFiles(fs, s.ipsetFiles)
      && s.hostPath !in s.hostFiles && s.hostPath !in s.ipsetFiles && s.ipsetPath !in s.ipsetFiles
    ensures var s := Select(t, c);
      MergeLists(fs, t, c) == (
        fs.(files := fs.files[s.hostPath := Contents(fs, s.hostFiles)]
                             [s.ipsetPath := Contents(fs, s.ipsetFiles)]),
        Done((s.hostFlag, s.ipsetFlag)))
  {
    var s := Select(t, c);
    SelectPathsInWorkspace(t, c);
    StreamingSuccess(fs, s.hostFiles, s.hostPath);
    var fs1 := fs.(files := fs.files[s.hostPath := Contents(fs, s.hostFiles)]);
    ContentsFrame(fs, fs1, s.ipsetFiles);
    StreamingSuccess(fs1, s.ipsetFiles, s.ipsetPath);
  }

  /** Without the workspace directory the first merge cannot create its file:
      the call panics and nothing changes. */
  lemma MergeListsWithoutWorkspace(fs: FileSystem, t: ListType, c: Config)
    requires TMP_DIR !in fs.dirs
    ensures MergeLists(fs, t, c) == (fs, Panicked(UNWRAP_PANIC))
  {
    SelectPathsInWorkspace(t, c);
  }

  /** The host lists are merged first: when that merge fails the ipset file is
      never touched. */
  lemma HostMergeFailureSkipsIpsets(fs: FileSystem, t: ListType, c: Config)
    requires MergeStreaming(fs, Select(t, c).hostFiles, Select(t, c).hostPath).result.Err?
    ensures MergeLists(fs, t, c).1 == Panicked(UNWRAP_PANIC)
    ensures var p := Select(t, c).ipsetPath;
      (p in MergeLists(fs, t, c).0.files <==> p in fs.files)
      && (p in fs.files ==> MergeLists(fs, t, c).0.files[p] == fs.files[p])
  {
    var s := Select(t, c);
    SelectPathsInWorkspace(t, c);
    MergeStreamingFrame(fs, s.hostFiles, s.hostPath, s.ipsetPath);
  }
}
