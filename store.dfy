/** The store of src/index.ts:188-374 as an object: the `store` map, the storage backend, the
    shared hydration record and the re-render calls made so far are fields that the methods
    update in place. Each method is proved to perform the transition of the same name in
    module StoreSpec; React's hooks are explicit steps (mount, unmount, render, effect). */
module Store {
  import opened Types
  import opened StoreSpec

  /** `PersistStorageHydrationContext`: a plain object that is shared and changed in place. */
  class HydrationRecord {
    var entries: Record

    constructor ()
      ensures entries == map[]
    {
      entries := map[];
    }
  }

  class PersistentStorage {
    /** `store`: key to store item. */
    var items: map<string, Item>
    /** The storage backend: one entry per key (`getItem`, `setItem`, `removeItem`). */
    var storage: map<string, string>
    /** Every re-render callback call made so far, in order. */
    var log: seq<Notification>
    /** `hydrationCtx`, the record the server side fills and `ssr` returns. */
    const record: HydrationRecord

    ghost function Snap(): State
      reads this
    {
      State(items, storage, log)
    }

    /** Each callback set holds an element once, and each live value is undefined exactly when
        its string is. */
    ghost predicate Valid()
      reads this
    {
      forall k :: k in items ==> NoDup(items[k].subscribers) && Agrees(items[k])
    }

    /** The module's state when it loads: no keys, and whatever the backend already holds. */
    constructor (initialStorage: map<string, string>)
      ensures Valid() && fresh(record)
      ensures items == map[] && storage == initialStorage && log == [] && record.entries == map[]
    {
      items, storage, log := map[], initialStorage, [];
      record := new HydrationRecord();
    }

    /** `PersistentStorage.get`: under the invariant, undefined exactly when `getStringified` is. */
    function Get(key: string): (r: Maybe<Value>)
      reads this
      requires key in items
      ensures Valid() ==> (r.Undefined? <==> items[key].stringified.Undefined?)
    {
      items[key].value
    }

    /** `PersistentStorage.getStringified`: under the invariant, undefined exactly when `get` is. */
    function GetStringified(key: string): (r: Maybe<string>)
      reads this
      requires key in items
      ensures Valid() ==> (r.Undefined? <==> items[key].value.Undefined?)
    {
      items[key].stringified
    }

    /** One iteration of `PersistentStorage(config)`: read the stored string, keep it if it parses
        and passes `isValid`, otherwise fall back to the default and write that through. */
    method ConfigureKey(key: string, cfg: KeyConfig, isClient: bool)
      requires Valid()
      modifies this
      ensures Valid()
      ensures items == old(items)[key := InitItem(cfg, Entry(old(storage), key), isClient)]
      ensures Entry(storage, key) == InitEntry(cfg, Entry(old(storage), key))
      ensures forall k :: k != key ==> Entry(storage, k) == Entry(old(storage), k)
      ensures log == old(log)
    {
      var stored := Entry(storage, key);
      var value: Maybe<Value> := Undefined;
      var str: Maybe<string> := Undefined;
      var kept := false;
      if stored.Defined? {
        var parsed := cfg.converter.parse(stored.value);
        if parsed.Returned? {
          value := Defined(parsed.value);
          if cfg.isValid.Undefined? || cfg.isValid.value(parsed.value) {
            str, kept := stored, true;
          }
        }
      }
      if !kept {
        match cfg.defaultValue {
          case Undefined =>
            // the corrected initialisation (StoreSpec.Initial): the source leaves a rejected
            // parse result in the value here (StoreSpec.InitialAsWritten)
            value := Undefined;
            storage := storage - {key};
          case Defined(d) =>
            value, str := cfg.defaultValue, Defined(cfg.converter.stringify(d));
            storage := storage[key := str.value];
        }
      }
      items := items[key := Item(value, str, cfg.converter, if isClient then ClientRegister else ServerRegister, [])];
    }

    /** `PersistentStorage(config)`: every configured key gets a fresh item (with an empty
        callback set) and its storage entry; other keys are untouched. */
    method Configure(config: map<string, KeyConfig>, isClient: bool)
      requires Valid()
      modifies this
      ensures Valid()
      ensures items.Keys == old(items).Keys + config.Keys
      ensures forall k :: k in config ==> items[k] == InitItem(config[k], Entry(old(storage), k), isClient)
      ensures forall k :: k in old(items) && k !in config ==> items[k] == old(items)[k]
      ensures forall k :: k in config ==> Entry(storage, k) == InitEntry(config[k], Entry(old(storage), k))
      ensures forall k :: k !in config ==> Entry(storage, k) == Entry(old(storage), k)
      ensures log == old(log)
    {
      var pending := config.Keys;
      while pending != {}
        invariant pending <= config.Keys && Valid()
        invariant items.Keys == old(items).Keys + (config.Keys - pending)
        invariant forall k :: k in config && k !in pending ==>
          items[k] == InitItem(config[k], Entry(old(storage), k), isClient)
        invariant forall k :: k in old(items) && (k !in config || k in pending) ==> items[k] == old(items)[k]
        invariant forall k :: k in config && k !in pending ==>
          Entry(storage, k) == InitEntry(config[k], Entry(old(storage), k))
        invariant forall k :: (k !in config || k in pending) ==> Entry(storage, k) == Entry(old(storage), k)
        invariant log == old(log)
        decreases pending
      {
        var key :| key in pending;
        ConfigureKey(key, config[key], isClient);
        pending := pending - {key};
      }
    }

    /** `setValue` of the key's item: only a new string writes, and then every callback in the
        set is called once, `size` of them, in iteration order. */
    method SetValue(key: string, v: Maybe<Value>, s: Maybe<string>)
      requires Valid() && key in items && (v.Undefined? <==> s.Undefined?)
      modifies this
      ensures Valid()
      ensures Snap() == SetValueF(old(Snap()), key, v, s)
    {
      var it := items[key];
      if s != it.stringified {
        items := items[key := it.(stringified := s, value := v)];
        match s {
          case Undefined => storage := storage - {key};
          case Defined(x) => storage := storage[key := x];
        }
        var subs := it.subscribers;
        ghost var items1, storage1, log0 := items, storage, log;
        var i := |subs|;
        while i > 0
          invariant 0 <= i <= |subs|
          invariant items == items1 && storage == storage1
          invariant log == log0 + Notifications(key, subs[..|subs| - i])
        {
          assert subs[..|subs| - i + 1][..|subs| - i] == subs[..|subs| - i];
          log := log + [Notification(key, subs[|subs| - i])];
          i := i - 1;
        }
        assert subs[..|subs|] == subs;
      }
    }

    /** The tuple's setter and `PersistentStorage.set`: apply a function to the live value, then
        write the result with its stringified form. */
    method Set(key: string, a: Action)
      requires Valid() && key in items
      modifies this
      ensures Valid()
      ensures Snap() == SetF(old(Snap()), key, a)
      ensures GetStringified(key) == Stringified(old(items[key]).converter, Resolve(a, old(items[key]).value))
    {
      var it := items[key];
      var v := match a case Put(x) => x case Update(f) => f(it.value);
      var s := if v.Undefined? then Undefined else Defined(it.converter.stringify(v.value));
      SetValue(key, v, s);
    }

    /** `PersistentStorage.setStringified`: write the string verbatim with its parsed value; a
        parse that throws leaves everything as it was. */
    method SetStringified(key: string, s: Maybe<string>) returns (threw: bool)
      requires Valid() && key in items
      modifies this
      ensures Valid()
      ensures threw <==> SetStringifiedF(old(Snap()), key, s).Threw?
      ensures threw ==> Snap() == old(Snap())
      ensures !threw ==> Snap() == SetStringifiedF(old(Snap()), key, s).value && GetStringified(key) == s
    {
      var conv := items[key].converter;
      var v: Maybe<Value> := Undefined;
      if s.Defined? {
        var parsed := conv.parse(s.value);
        if parsed.Threw? {
          return true;
        }
        v := Defined(parsed.value);
      }
      SetValue(key, v, s);
      threw := false;
    }

    /** The layout effect's mount: add the component's callback to the key's set. */
    method Mount(key: string, sub: Sub)
      requires Valid() && key in items
      modifies this
      ensures Valid()
      ensures items == old(items)[key := old(items[key]).(subscribers := Subscribe(old(items[key].subscribers), sub))]
      ensures storage == old(storage) && log == old(log)
    {
      var it := items[key];
      if sub !in it.subscribers {
        items := items[key := it.(subscribers := it.subscribers + [sub])];
      }
    }

    /** The layout effect's cleanup: delete the component's callback from the key's set. */
    method Unmount(key: string, sub: Sub)
      requires Valid() && key in items
      modifies this
      ensures Valid()
      ensures items == old(items)[key := old(items[key]).(subscribers := Unsubscribe(old(items[key].subscribers), sub))]
      ensures storage == old(storage) && log == old(log)
    {
      var it := items[key];
      items := items[key := it.(subscribers := Unsubscribe(it.subscribers, sub))];
    }

    /** The server `register`: become a no-op and record the key's current string. */
    method RenderServer(key: string)
      requires Valid() && key in items
      modifies this, record
      ensures Valid()
      ensures items == old(items)[key := ServerRegisterF(old(items[key]), key, old(record.entries)).0]
      ensures record.entries == ServerRegisterF(old(items[key]), key, old(record.entries)).1
      ensures storage == old(storage) && log == old(log)
    {
      var it := items[key];
      items := items[key := it.(register := NoopRegister)];
      record.entries := record.entries[key := it.stringified];
    }

    /** The client `register` (after its mount): with a record that holds the key, show the
        server's pair, consume the key, and return the effect that restores the client pair.
        `ctx` is `null` when no provider supplies a record. */
    method RenderClient(key: string, ctx: HydrationRecord?) returns (effect: Maybe<Effect>, threw: bool)
      requires Valid() && key in items
      modifies this, ctx
      ensures Valid()
      ensures storage == old(storage) && log == old(log)
      ensures ctx == null ==> items == old(items) && effect == Undefined && !threw
      ensures ctx != null ==>
        match ClientRenderF(old(items[key]), key, old(ctx.entries))
        case Threw => threw && effect == Undefined && items == old(items) && ctx.entries == old(ctx.entries)
        case Returned(r) => !threw && items == old(items)[key := r.item] && ctx.entries == r.ctx && effect == r.effect
      ensures effect.Defined? ==> effect.value.key == key && (effect.value.value.Undefined? <==> effect.value.stringified.Undefined?)
    {
      effect, threw := Undefined, false;
      if ctx != null && key in ctx.entries {
        var it := items[key];
        var server := ctx.entries[key];
        if it.stringified != server {
          var v: Maybe<Value> := Undefined;
          if server.Defined? {
            var parsed := it.converter.parse(server.value);
            if parsed.Threw? {
              threw := true;
              return;
            }
            v := Defined(parsed.value);
          }
          items := items[key := it.(value := v, stringified := server)];
        }
        ctx.entries := ctx.entries - {key};
        effect := Defined(Restore(key, it.value, it.stringified));
      }
    }

    /** The client's effect after a hydrating render: `setValue(clientValue, clientStringifiedValue)`. */
    method RunHydrationEffect(e: Effect)
      requires Valid() && e.key in items && (e.value.Undefined? <==> e.stringified.Undefined?)
      modifies this
      ensures Valid()
      ensures Snap() == RunEffectF(old(Snap()), e)
    {
      SetValue(e.key, e.value, e.stringified);
    }

    /** The hook `usePersistentState(key)`: call the item's current `register`, then return the
        live value and string. */
    method UsePersistentState(key: string, ctx: HydrationRecord?)
      returns (value: Maybe<Value>, stringified: Maybe<string>, effect: Maybe<Effect>, threw: bool)
      requires Valid() && key in items
      modifies this, record, ctx
      ensures Valid() && key in items
      ensures storage == old(storage) && log == old(log)
      ensures !threw ==> value == Get(key) && stringified == GetStringified(key)
      ensures old(items[key].register) == NoopRegister ==>
        items == old(items) && record.entries == old(record.entries) && effect == Undefined && !threw &&
        (ctx != null ==> ctx.entries == old(ctx.entries))
      ensures old(items[key].register) == ServerRegister ==>
        var (it', rec') := ServerRegisterF(old(items[key]), key, old(record.entries));
        items == old(items)[key := it'] && record.entries == rec' && effect == Undefined && !threw &&
        (ctx != null && ctx != record ==> ctx.entries == old(ctx.entries))
      ensures old(items[key].register) == ClientRegister ==>
        (ctx != record ==> record.entries == old(record.entries)) &&
        (ctx == null ==> items == old(items) && effect == Undefined && !threw) &&
        (ctx != null ==>
          match ClientRenderF(old(items[key]), key, old(ctx.entries))
          case Threw => threw && items == old(items) && ctx.entries == old(ctx.entries)
          case Returned(r) => !threw && items == old(items)[key := r.item] && ctx.entries == r.ctx && effect == r.effect)
    {
      effect, threw := Undefined, false;
      match items[key].register {
        case ClientRegister => effect, threw := RenderClient(key, ctx);
        case ServerRegister => RenderServer(key);
        case NoopRegister =>
      }
      value, stringified := items[key].value, items[key].stringified;
    }

    /** `PersistentStorage.ssr(values, stringifiedValues)`: `set` once per entry, the values
        first and then the stringified values (each handed to `set` as a value), and return
        the shared record. */
    method Ssr(values: seq<(string, Maybe<Value>)>, strs: seq<(string, Maybe<string>)>) returns (r: HydrationRecord)
      requires Valid() && Configured(Snap(), values) && Configured(Snap(), AsValues(strs))
      modifies this
      ensures Valid() && r == record
      ensures Snap() == SsrF(old(Snap()), values, strs)
    {
      var i := 0;
      while i < |values|
        invariant 0 <= i <= |values| && Valid()
        invariant items.Keys == old(items).Keys
        invariant Configured(Snap(), values[i..])
        invariant SetEach(Snap(), values[i..]) == SetEach(old(Snap()), values)
      {
        assert values[i..][1..] == values[i + 1..];
        Set(values[i].0, Put(values[i].1));
        i := i + 1;
      }
      ghost var tv := AsValues(strs);
      assert Configured(Snap(), tv);
      var j := 0;
      while j < |strs|
        invariant 0 <= j <= |strs| && Valid()
        invariant items.Keys == old(items).Keys
        invariant Configured(Snap(), tv[j..])
        invariant SetEach(Snap(), tv[j..]) == SsrF(old(Snap()), values, strs)
      {
        assert tv[j..][1..] == tv[j + 1..];
        assert tv[j] == (strs[j].0, AsValue(strs[j].1));
        Set(strs[j].0, Put(AsValue(strs[j].1)));
        j := j + 1;
      }
      r := record;
    }
  }
}
