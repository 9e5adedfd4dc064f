/** The `etcd_key` resource (internal/provider/resource_key.go): the value in
    `value` stored under the key in `key`. */
module Keys {
  import opened Etcd
  import opened Resource

  /** resourceKeyRead: looks the key up under `key`, or under the ID when
      `key` is empty; a failed lookup or an absent key is an error, and a
      present key's value goes into `value`. Writing the key back hands the
      SDK a byte slice for a string attribute, which it refuses, so Read
      returns there with no diagnostic and never takes a new ID. */
  method Read(store: Store, d: ResourceData, faults: set<Request>) returns (diags: Diagnostics)
    modifies d
    ensures diags != Panic
    ensures var key := WithFallback(old(d.strings), "key", old(d.id));
      var looked := Backfilled(old(d.strings), "key", old(d.id));
      && (diags == Error <==> Request.Get(key) in faults || key !in store.kv)
      && d.strings == (if diags == Error then looked else looked["value" := store.kv[key]])
    ensures d.id == old(d.id) && d.bools == old(d.bools) && d.prior == old(d.prior)
  {
    var key := d.Get("key");
    if key == "" {
      key := d.id;
      d.Set("key", key);
    }
    var err, value := store.Get(key, faults);
    if err {
      return Error;
    }
    if value.None? {
      return Error;
    }
    // The range-less Get answers with the one pair stored under the key.
    d.Set("value", value.value);
    diags := Nil;
  }

  /** resourceKeyCreate: the debug log line reads the lookup's response
      before its error is checked, so a failed lookup dereferences the nil
      response and panics before anything is written (an existing key is
      not an error); a refused write is an error; otherwise the value is
      stored under the key, the resource takes a fresh ID and is read back. */
  method Create(store: Store, d: ResourceData, faults: set<Request>, newId: string)
    returns (diags: Diagnostics)
    requires store.Valid()
    modifies store, d
    ensures store.Valid()
    ensures store.roles == old(store.roles) && store.users == old(store.users)
    ensures var (key, value) := (Lookup(old(d.strings), "key"), Lookup(old(d.strings), "value"));
      if Request.Get(key) in faults then
        diags == Panic && store.kv == old(store.kv) && d.strings == old(d.strings) && d.id == old(d.id)
      else if Request.Put(key, value) in faults then
        diags == Error && store.kv == old(store.kv) && d.strings == old(d.strings) && d.id == old(d.id)
      else
        var readKey := WithFallback(old(d.strings), "key", newId);
        var looked := Backfilled(old(d.strings), "key", newId);
        && store.kv == old(store.kv)[key := value]
        && d.id == newId
        && diags != Panic
        && (diags == Error <==> Request.Get(readKey) in faults || readKey !in store.kv)
        && d.strings == (if diags == Error then looked else looked["value" := store.kv[readKey]])
    ensures d.bools == old(d.bools) && d.prior == old(d.prior)
  {
    var key := d.Get("key");
    var value := d.Get("value");
    var err, _ := store.Get(key, faults);
    if err {
      return Panic;
    }
    var putErr := store.Put(key, value, faults);
    if putErr {
      return Error;
    }
    d.SetId(newId);
    diags := Read(store, d, faults);
  }

  /** resourceKeyUpdate: does nothing unless `value` changed; an absent key is
      an error and nothing is written; otherwise the new value is stored and
      read back. */
  method Update(store: Store, d: ResourceData, faults: set<Request>) returns (diags: Diagnostics)
    requires store.Valid()
    modifies store, d
    ensures diags != Panic
    ensures store.Valid()
    ensures store.roles == old(store.roles) && store.users == old(store.users)
    ensures var (key, value) := (Lookup(old(d.strings), "key"), Lookup(old(d.strings), "value"));
      if !old(d.HasChange("value")) then
        diags == Nil && store.kv == old(store.kv) && d.strings == old(d.strings)
      else if Request.Get(key) in faults || key !in old(store.kv) || Request.Put(key, value) in faults then
        diags == Error && store.kv == old(store.kv) && d.strings == old(d.strings)
      else
        var readKey := WithFallback(old(d.strings), "key", old(d.id));
        var looked := Backfilled(old(d.strings), "key", old(d.id));
        && store.kv == old(store.kv)[key := value]
        && (diags == Error <==> Request.Get(readKey) in faults || readKey !in store.kv)
        && d.strings == (if diags == Error then looked else looked["value" := store.kv[readKey]])
    ensures d.id == old(d.id) && d.bools == old(d.bools) && d.prior == old(d.prior)
  {
    if d.HasChange("value") {
      var key := d.Get("key");
      var value := d.Get("value");
      var err, current := store.Get(key, faults);
      if err {
        return Error;
      }
      if current.None? {
        return Error;
      }
      var putErr := store.Put(key, value, faults);
      if putErr {
        return Error;
      }
      diags := Read(store, d, faults);
      return;
    }
    diags := Nil;
  }

  /** resourceKeyDelete: removes exactly the key in `key`; a failed request
      is an error. */
  method Delete(store: Store, d: ResourceData, faults: set<Request>) returns (diags: Diagnostics)
    requires store.Valid()
    modifies store
    ensures diags != Panic
    ensures store.Valid()
    ensures store.roles == old(store.roles) && store.users == old(store.users)
    ensures var key := d.Get("key");
      && (diags == Error <==> Request.Delete(key) in faults)
      && store.kv == (if diags == Error then old(store.kv) else old(store.kv) - {key})
  {
    var errDelete := store.Delete(d.Get("key"), faults);
    diags := if errDelete then Error else Nil;
  }
}
