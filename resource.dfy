/** The part of the Terraform plugin SDK the handlers use: a resource's
    attribute values, its prior state and its ID, and the diagnostics a
    handler returns. */
module Resource {

  /** What a CRUD handler hands back to Terraform: nothing, or an error,
      or `Panic` when the handler dereferences the nil response of a failed
      request and crashes before returning. The error texts are not
      modelled. `errors.Wrap(nil, …)` is nil, so a handler that wraps a nil
      error returns `Nil`. */
  datatype Diagnostics = Nil | Error | Panic

  /** `d.Get` of a string attribute: the zero value when it is unset. */
  function Lookup(attrs: map<string, string>, name: string): string
  {
    if name in attrs then attrs[name] else ""
  }

  /** The name a Read looks up: the attribute, or the resource ID when the
      attribute is empty (as after an import). */
  function WithFallback(attrs: map<string, string>, name: string, id: string): (r: string)
    ensures Lookup(attrs, name) == "" ==> r == id
    ensures Lookup(attrs, name) != "" ==> r == Lookup(attrs, name)
    ensures r == "" <==> Lookup(attrs, name) == "" && id == ""
  {
    if Lookup(attrs, name) == "" then id else Lookup(attrs, name)
  }

  /** The attributes after a Read copied the ID into an empty attribute. */
  function Backfilled(attrs: map<string, string>, name: string, id: string): (r: map<string, string>)
    ensures Lookup(r, name) == WithFallback(attrs, name, id)
    ensures forall other :: other != name ==> Lookup(r, other) == Lookup(attrs, other)
    ensures Lookup(attrs, name) != "" ==> r == attrs
  {
    if Lookup(attrs, name) == "" then attrs[name := id] else attrs
  }

  /** `schema.ResourceData` for one resource instance. `strings` holds the
      string attributes of the planned (or current) state, `bools` the
      boolean ones, `prior` the string attributes of the previous state, and
      `id` the resource ID. */
  class ResourceData {
    var id: string
    var strings: map<string, string>
    var bools: map<string, bool>
    var prior: map<string, string>

    constructor (id: string, strings: map<string, string>, bools: map<string, bool>, prior: map<string, string>)
      ensures this.id == id && this.strings == strings && this.bools == bools && this.prior == prior
    {
      this.id := id;
      this.strings := strings;
      this.bools := bools;
      this.prior := prior;
    }

    function Get(name: string): string
      reads this
    {
      Lookup(strings, name)
    }

    /** `d.Get(name).(bool)`: false when the attribute is unset. */
    function GetBool(name: string): bool
      reads this
    {
      name in bools && bools[name]
    }

    /** `d.GetChange(name)`: the previous value and the planned one. */
    function GetChange(name: string): (string, string)
      reads this
    {
      (Lookup(prior, name), Lookup(strings, name))
    }

    /** `d.HasChange(name)`: the planned value differs from the previous one. */
    function HasChange(name: string): bool
      reads this
    {
      Lookup(prior, name) != Lookup(strings, name)
    }

    /** `d.Set` of a declared string attribute. */
    method Set(name: string, value: string)
      modifies this
      ensures strings == old(strings)[name := value]
      ensures Get(name) == value
      ensures id == old(id) && bools == old(bools) && prior == old(prior)
    {
      strings := strings[name := value];
    }

    method SetId(newId: string)
      modifies this
      ensures id == newId
      ensures strings == old(strings) && bools == old(bools) && prior == old(prior)
    {
      id := newId;
    }
  }
}
