/**
  The configuration registry: the items known by key, the same items grouped
  by the section and name they had when registered, and the one provider
  that every lookup by key is handed to.  Go keeps these as package-level
  variables; here they are the fields of one object.  The registry's panics
  (no provider yet, provider set twice) are preconditions.
 */
module Registry {
  import Text
  import opened IniData
  import opened IniWrite
  import opened IniSeed
  import opened IniProvider
  import opened ConfigItem

  /** The two tables of the registry as values. */
  datatype Tables = Tables(items: map<string, ConfigurationItem>, collection: map<string, map<string, ConfigurationItem>>)

  /** Every item grouped by section is also known by some key. */
  ghost predicate TablesValid(t: Tables) {
    forall s, n :: s in t.collection && n in t.collection[s] ==> t.collection[s][n] in t.items.Values
  }

  /** The items registered in a section, by name; none for a section not seen yet. */
  function SectionMap(t: Tables, section: string): map<string, ConfigurationItem> {
    if section in t.collection then t.collection[section] else map[]
  }

  function AlreadyAdded(key: string): string {
    "ConfigurationItem with key '" + key + "' has already been added.\n"
  }

  function AlreadyExists(name: string, section: string): string {
    "ConfigurationItem '" + name + "' in section '" + section + "' already exists.\n"
  }

  function NotFound(key: string): string {
    "Unable to find ConfigurationItem with key '" + key + "'\n"
  }

  /**
    addConfigurationItem on values, for an item whose section and name are
    `section` and `name`: the key must be new; the item is then stored by
    key, its section map is created if missing, and the item is stored under
    its name unless the section map already holds the KEY as a name, in
    which case the key entry stays and the call fails.
   */
  function Register(t: Tables, key: string, item: ConfigurationItem, section: string, name: string): (r: (Tables, bool, string))
    ensures key in t.items ==> r == (t, false, AlreadyAdded(key))
    ensures key !in t.items ==>
              var sm := SectionMap(t, section);
              && r.0.items == t.items[key := item]
              && (r.1 <==> key !in sm)
              && (r.1 ==> r.0.collection == t.collection[section := sm[name := item]] && r.2 == "")
              && (!r.1 ==> r.0.collection == t.collection[section := sm] && r.2 == AlreadyExists(name, section))
  {
    if key in t.items then (t, false, AlreadyAdded(key))
    else
      var items := t.items[key := item];
      var sm := SectionMap(t, section);
      var collection := t.collection[section := sm];
      if key in sm then (Tables(items, collection), false, AlreadyExists(name, section))
      else (Tables(items, collection[section := sm[name := item]]), true, "")
  }

  /** A registration never breaks the tables' invariant, whichever way it ends. */
  lemma RegisterKeepsValid(t: Tables, key: string, item: ConfigurationItem, section: string, name: string)
    requires TablesValid(t)
    ensures TablesValid(Register(t, key, item, section, name).0)
  {
    var r := Register(t, key, item, section, name).0;
    if key !in t.items {
      assert item == r.items[key];
      forall s, n | s in r.collection && n in r.collection[s] ensures r.collection[s][n] in r.items.Values {
        var x := r.collection[s][n];
        if x != item {
          assert x in t.items.Values;
          var k :| k in t.items && t.items[k] == x;
          assert r.items[k] == x;
        }
      }
    }
  }

  /** A failed call says why, and a successful one says nothing. */
  lemma RegisterMessage(t: Tables, key: string, item: ConfigurationItem, section: string, name: string)
    ensures var r := Register(t, key, item, section, name);
            r.1 <==> r.2 == ""
  {
  }

  /**
    The section check looks for the key among the names: a new item whose
    name is already taken in its section is accepted and replaces the item
    registered under that name, which stays known by its own key.
   */
  lemma SameNameReplaces(t: Tables, key: string, item: ConfigurationItem, section: string, name: string)
    requires key !in t.items && section in t.collection
    requires name in t.collection[section] && key !in t.collection[section]
    ensures var r := Register(t, key, item, section, name);
            && r.1
            && r.0.collection[section][name] == item
            && r.0.items == t.items[key := item]
  {
  }

  /**
    The other way round, a new key that happens to be the name of another
    item of that section is refused, yet the item stays stored by its key.
   */
  lemma KeyTakenAsNameFails(t: Tables, key: string, item: ConfigurationItem, section: string, name: string)
    requires key !in t.items && section in t.collection && key in t.collection[section]
    ensures var r := Register(t, key, item, section, name);
            && !r.1
            && r.2 == AlreadyExists(name, section)
            && key in r.0.items && r.0.items[key] == item
            && r.0.collection == t.collection
  {
  }

  /** What the batch needs of each entry of the container: the item, its section and its name. */
  type Entry = (ConfigurationItem, string, string)

  /** AddConfigurationItems on values, in the given order of keys: the tables and the joined failure messages. */
  function RegisterAll(t: Tables, keys: seq<string>, e: map<string, Entry>): (r: (Tables, string))
    requires forall i :: 0 <= i < |keys| ==> keys[i] in e
    ensures forall x :: x in t.items ==> x in r.0.items && r.0.items[x] == t.items[x]
    ensures forall i :: 0 <= i < |keys| ==> keys[i] in r.0.items
    decreases |keys|
  {
    if keys == [] then (t, "")
    else
      var k := keys[0];
      var r := Register(t, k, e[k].0, e[k].1, e[k].2);
      var rest := RegisterAll(r.0, keys[1..], e);
      (rest.0, Failure(r) + rest.1)
  }

  /** Every registration of the batch succeeds, each from the tables the previous ones left. */
  ghost predicate AllAdded(t: Tables, keys: seq<string>, e: map<string, Entry>)
    requires forall i :: 0 <= i < |keys| ==> keys[i] in e
    decreases |keys|
  {
    keys == [] ||
      var k := keys[0];
      var r := Register(t, k, e[k].0, e[k].1, e[k].2);
      r.1 && AllAdded(r.0, keys[1..], e)
  }

  /** The batch reports no error exactly when every one of its registrations succeeded. */
  lemma {:induction false} RegisterAllErrorIff(t: Tables, keys: seq<string>, e: map<string, Entry>)
    requires forall i :: 0 <= i < |keys| ==> keys[i] in e
    ensures RegisterAll(t, keys, e).1 == "" <==> AllAdded(t, keys, e)
    decreases |keys|
  {
    if keys != [] {
      var k := keys[0];
      var r := Register(t, k, e[k].0, e[k].1, e[k].2);
      RegisterMessage(t, k, e[k].0, e[k].1, e[k].2);
      RegisterAllErrorIff(r.0, keys[1..], e);
    }
  }

  /**
    After a batch with distinct keys, the items known by key are the old
    ones plus every item of the batch whose key was new; failures at the
    section check stay registered.
   */
  lemma {:induction false} RegisterAllItems(t: Tables, keys: seq<string>, e: map<string, Entry>)
    requires forall i :: 0 <= i < |keys| ==> keys[i] in e
    requires forall i, j :: 0 <= i < j < |keys| ==> keys[i] != keys[j]
    ensures var items := RegisterAll(t, keys, e).0.items;
            && (forall x :: x in items <==> x in t.items || x in keys)
            && (forall x :: x in t.items ==> items[x] == t.items[x])
            && (forall x :: x in keys && x !in t.items ==> items[x] == e[x].0)
    decreases |keys|
  {
    if keys != [] {
      var k := keys[0];
      var rest := keys[1..];
      var r := Register(t, k, e[k].0, e[k].1, e[k].2);
      assert forall i :: 0 <= i < |rest| ==> rest[i] == keys[i + 1];
      assert k !in rest;
      assert forall x :: x in keys <==> x == k || x in rest;
      RegisterAllItems(r.0, rest, e);
    }
  }

  class Registry {
    var configItems: map<string, ConfigurationItem>
    var configItemCollection: map<string, map<string, ConfigurationItem>>
    var configProvider: IniConfigProvider?

    ghost predicate Valid()
      reads this
    {
      TablesValid(Tables(configItems, configItemCollection))
    }

    /** The package's init: both tables empty, no provider. */
    constructor ()
      ensures configItems == map[] && configItemCollection == map[] && configProvider == null
      ensures Valid()
    {
      configItems := map[];
      configItemCollection := map[];
      configProvider := null;
    }

    /** SetConfigurationProvider: allowed once only (a second call panics). */
    method SetConfigurationProvider(provider: IniConfigProvider)
      requires configProvider == null
      modifies this
      ensures configProvider == provider
      ensures configItems == old(configItems) && configItemCollection == old(configItemCollection)
    {
      configProvider := provider;
    }

    /** addConfigurationItem, with the item's section and name as they are at the call. */
    method AddConfigurationItem(key: string, item: ConfigurationItem) returns (ok: bool, msg: string)
      modifies this
      ensures (Tables(configItems, configItemCollection), ok, msg)
              == Register(Tables(old(configItems), old(configItemCollection)), key, item, item.GetSection(), item.GetName())
      ensures configProvider == old(configProvider)
      ensures old(Valid()) ==> Valid()
    {
      if Valid() {
        RegisterKeepsValid(Tables(configItems, configItemCollection), key, item, item.GetSection(), item.GetName());
      }
      if key in configItems {
        return false, AlreadyAdded(key);
      }
      configItems := configItems[key := item];
      var section := item.GetSection();
      var sectionMap: map<string, ConfigurationItem>;
      if section in configItemCollection {
        sectionMap := configItemCollection[section];
        assert configItemCollection == configItemCollection[section := sectionMap];
      } else {
        sectionMap := map[];
        configItemCollection := configItemCollection[section := sectionMap];
      }
      if key in sectionMap {
        return false, AlreadyExists(item.GetName(), item.GetSection());
      }
      configItemCollection := configItemCollection[section := sectionMap[item.GetName() := item]];
      return true, "";
    }

    /**
      AddConfigurationItems: registers every entry of the container, in an
      order of the method's choosing, and joins the failure messages.
     */
    method AddConfigurationItems(container: map<string, ConfigurationItem>) returns (err: Option<string>, ghost order: seq<string>)
      modifies this
      ensures ListsOnce(order, container.Keys)
      ensures var r := RegisterAll(Tables(old(configItems), old(configItemCollection)), order, EntriesOf(container));
              && Tables(configItems, configItemCollection) == r.0
              && err == if r.1 == "" then None else Some(r.1)
      ensures configProvider == old(configProvider)
      ensures old(Valid()) ==> Valid()
    {
      var errorBuffer := "";
      order := [];
      ghost var e := EntriesOf(container);
      ghost var t0 := Tables(configItems, configItemCollection);
      ghost var valid0 := Valid();
      var left := container.Keys;
      while left != {}
        invariant RegisteredSoFar(t0, order, container.Keys, left, e, Tables(configItems, configItemCollection), errorBuffer)
        invariant configProvider == old(configProvider)
        invariant valid0 ==> Valid()
        decreases left
      {
        var key :| key in left;
        var item := container[key];
        ghost var t := Tables(configItems, configItemCollection);
        var ret, str := AddConfigurationItem(key, item);
        RegisteredStep(t0, order, container.Keys, left, e, t, errorBuffer, key, (Tables(configItems, configItemCollection), ret, str));
        if !ret {
          errorBuffer := errorBuffer + str;
        }
        order := order + [key];
        left := left - {key};
      }
      assert container.Keys - {} == container.Keys;
      KeysDone(order, container.Keys);
      if |errorBuffer| > 0 {
        return Some(errorBuffer), order;
      }
      return None, order;
    }

    /** getConfigurationItemByKey: the item registered under the key, or the "Unable to find" message. */
    function GetConfigurationItemByKey(key: string): (r: Result<ConfigurationItem, string>)
      reads this
      ensures r.Ok? <==> key in configItems
      ensures r.Ok? ==> r.value == configItems[key]
      ensures r.Err? ==> r.error == NotFound(key)
    {
      if key in configItems then Ok(configItems[key]) else Err(NotFound(key))
    }

    /**
      The collection as the provider's seeding reads it: each item's current
      name and default.  Since every grouped item is also known by key, it
      depends on nothing but the registry and the items it knows by key.
     */
    function Declared(): (c: IniSeed.Declared)
      requires Valid()
      reads this, configItems.Values
      ensures c.Keys == configItemCollection.Keys
      ensures forall s :: s in c ==> c[s].Keys == configItemCollection[s].Keys
      ensures forall s, n :: s in c && n in c[s] ==>
                c[s][n] == (configItemCollection[s][n].GetName(), configItemCollection[s][n].GetDefaultValue())
    {
      map s | s in configItemCollection ::
        map n | n in configItemCollection[s] ::
          (configItemCollection[s][n].GetName(), configItemCollection[s][n].GetDefaultValue())
    }

    /** Initialize: hands the registry's collection to the provider's Initialize. */
    method Initialize() returns (err: Option<ReadError>, ghost order: seq<(string, seq<string>)>, ghost layout: Layout)
      requires Valid() && configProvider != null && configProvider.Valid()
      modifies configProvider
      ensures configProvider.Valid()
      ensures var p := configProvider; var r := IniRead.ReadText(old(p.data), old(p.fileText));
              && err == r.error
              && (err.Some? ==> p.data == r.state.data && p.fileText == old(p.fileText))
              && (err.None? ==> IsSeedOrder(order, old(Declared())))
              && (err.None? ==>
                    var seeded := Seed(r.state.data, SeedSteps(order, old(Declared())));
                    && p.data == seeded.0
                    && (seeded.1 ==> IsLayoutOf(layout, p.data) && p.fileText == Render(layout))
                    && (!seeded.1 ==> p.fileText == old(p.fileText)))
      ensures err.None? ==>
                var c := old(Declared()); var p := configProvider.data;
                forall s :: s in c ==> Text.ToLower(s) in p && forall n :: n in c[s] ==> Text.ToLower(c[s][n].0) in p[Text.ToLower(s)]
    {
      err, order, layout := configProvider.Initialize(Declared());
    }

    /**
      SetValue: an unknown key is the lookup error and the provider is not
      called; otherwise the provider stores the value for the registered item.
     */
    method SetValue(key: string, value: string) returns (err: Option<string>, ghost layout: Layout)
      requires configProvider != null
      modifies configProvider
      ensures key !in configItems ==>
                err == Some(NotFound(key))
                && configProvider.data == old(configProvider.data) && configProvider.fileText == old(configProvider.fileText)
      ensures key in configItems ==>
                var item := configItems[key];
                var s := SectionKey(item.GetSection()); var o := Text.ToLower(item.GetName());
                && err == None
                && (s in old(configProvider.data) ==>
                      && configProvider.data == old(configProvider.data)[s := old(configProvider.data)[s][o := value]]
                      && configProvider.GetString(item) == Ok(value)
                      && IsLayoutOf(layout, configProvider.data) && configProvider.fileText == Render(layout))
                && (s !in old(configProvider.data) ==>
                      configProvider.data == old(configProvider.data) && configProvider.fileText == old(configProvider.fileText))
    {
      layout := [];
      var found := GetConfigurationItemByKey(key);
      if found.Err? {
        return Some(found.error), layout;
      }
      layout := configProvider.SetValue(found.value, value);
      return None, layout;
    }

    /** GetString: the lookup error for an unknown key, otherwise the provider's answer for the item. */
    function GetString(key: string): (r: Result<string, KeyError>)
      requires configProvider != null
      reads this, configProvider, configItems.Values
      ensures key !in configItems ==> r == Err(UnknownKey(NotFound(key)))
      ensures key in configItems ==>
                var v := configProvider.GetString(configItems[key]);
                (r.Ok? <==> v.Ok?) && (r.Ok? ==> r.value == v.value) && (r.Err? ==> r.error == ProviderError(v.error))
    {
      match GetConfigurationItemByKey(key)
      case Err(msg) => Err(UnknownKey(msg))
      case Ok(item) =>
        match configProvider.GetString(item)
        case Ok(v) => Ok(v)
        case Err(e) => Err(ProviderError(e))
    }

    /** GetInt: the lookup error for an unknown key, otherwise the provider's answer for the item. */
    function GetInt(key: string): (r: Result<int, KeyError>)
      requires configProvider != null
      reads this, configProvider, configItems.Values
      ensures key !in configItems ==> r == Err(UnknownKey(NotFound(key)))
      ensures key in configItems ==>
                var v := configProvider.GetInt(configItems[key]);
                (r.Ok? <==> v.Ok?) && (r.Ok? ==> r.value == v.value) && (r.Err? ==> r.error == ProviderError(v.error))
    {
      match GetConfigurationItemByKey(key)
      case Err(msg) => Err(UnknownKey(msg))
      case Ok(item) =>
        match configProvider.GetInt(item)
        case Ok(v) => Ok(v)
        case Err(e) => Err(ProviderError(e))
    }

    /** GetBool: the lookup error for an unknown key, otherwise the provider's answer for the item. */
    function GetBool(key: string): (r: Result<bool, KeyError>)
      requires configProvider != null
      reads this, configProvider, configItems.Values
      ensures key !in configItems ==> r == Err(UnknownKey(NotFound(key)))
      ensures key in configItems ==>
                var v := configProvider.GetBool(configItems[key]);
                (r.Ok? <==> v.Ok?) && (r.Ok? ==> r.value == v.value) && (r.Err? ==> r.error == ProviderError(v.error))
    {
      match GetConfigurationItemByKey(key)
      case Err(msg) => Err(UnknownKey(msg))
      case Ok(item) =>
        match configProvider.GetBool(item)
        case Ok(v) => Ok(v)
        case Err(e) => Err(ProviderError(e))
    }
  }

  /** The errors a lookup by key returns: the registry's own, or the provider's. */
  datatype KeyError = UnknownKey(message: string) | ProviderError(error: GetError)

  /** The container's entries as registration reads them. */
  function EntriesOf(container: map<string, ConfigurationItem>): (e: map<string, Entry>)
    reads container.Values
    ensures e.Keys == container.Keys
    ensures forall k :: k in e ==> e[k] == (container[k], container[k].GetSection(), container[k].GetName())
  {
    map k | k in container :: (container[k], container[k].GetSection(), container[k].GetName())
  }

  /** The message one registration adds to the batch's error text. */
  function Failure(r: (Tables, bool, string)): string {
    if r.1 then "" else r.2
  }

  /** A batch of one. */
  lemma RegisterAllOne(t: Tables, k: string, e: map<string, Entry>)
    requires k in e
    ensures var x := Register(t, k, e[k].0, e[k].1, e[k].2);
            RegisterAll(t, [k], e) == (x.0, Failure(x))
  {
    var x := Register(t, k, e[k].0, e[k].1, e[k].2);
    assert [k][1..] == [];
    assert RegisterAll(t, [k], e) == (x.0, Failure(x) + "");
    assert Failure(x) + "" == Failure(x);
  }

  /** One more registration at the end of a batch. */
  lemma {:induction false} RegisterAllSnoc(t: Tables, keys: seq<string>, k: string, e: map<string, Entry>)
    requires forall i :: 0 <= i < |keys| ==> keys[i] in e
    requires k in e
    ensures var r := RegisterAll(t, keys, e);
            var x := Register(r.0, k, e[k].0, e[k].1, e[k].2);
            RegisterAll(t, keys + [k], e) == (x.0, r.1 + Failure(x))
    decreases |keys|
  {
    if keys == [] {
      var x := Register(t, k, e[k].0, e[k].1, e[k].2);
      assert [] + [k] == [k];
      assert RegisterAll(t, keys, e) == (t, "");
      RegisterAllOne(t, k, e);
      assert "" + Failure(x) == Failure(x);
    } else {
      var k0 := keys[0];
      var r := Register(t, k0, e[k0].0, e[k0].1, e[k0].2);
      Text.SnocParts(keys, k);
      RegisterAllSnoc(r.0, keys[1..], k, e);
      var mid := RegisterAll(r.0, keys[1..], e);
      var x := Register(mid.0, k, e[k].0, e[k].1, e[k].2);
      Text.AppendAssoc(Failure(r), mid.1, Failure(x));
    }
  }

  /** The state of addConfigurationItems' loop: `order` lists the keys not `left`, and the tables and buffer are their fold. */
  ghost predicate RegisteredSoFar(t0: Tables, order: seq<string>, keys: set<string>, left: set<string>,
                                  e: map<string, Entry>, t: Tables, buf: string) {
    && left <= keys && keys <= e.Keys
    && KeysSoFar(order, keys, keys - left)
    && RegisterAll(t0, order, e) == (t, buf)
  }

  lemma RegisteredStep(t0: Tables, order: seq<string>, keys: set<string>, left: set<string>,
                       e: map<string, Entry>, t: Tables, buf: string, key: string, r: (Tables, bool, string))
    requires RegisteredSoFar(t0, order, keys, left, e, t, buf) && key in left
    requires r == Register(t, key, e[key].0, e[key].1, e[key].2)
    ensures RegisteredSoFar(t0, order + [key], keys, left - {key}, e, r.0, if r.1 then buf else buf + r.2)
  {
    var done := keys - left;
    KeysStep(order, keys, done, key);
    assert keys - (left - {key}) == done + {key};
    RegisterAllSnoc(t0, order, key, e);
    assert buf + "" == buf;
  }
}
