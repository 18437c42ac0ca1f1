/**
 * A saved watermark template: a name, a description and a configuration, with creation and update
 * times. The clock is a parameter `now` (milliseconds); the database id is `None` until the template
 * is stored.
 */
module Template {
  import opened Wrappers
  import opened Strs
  import opened Config

  /** What `copy()` appends to the name of the copy. */
  const COPY_SUFFIX: string := " (副本)"

  class WatermarkTemplate {
    var id: Option<int>
    var name: Option<string>
    var description: Option<string>
    var config: Option<AnyConfig>
    var createdAt: int
    var updatedAt: int

    /** The objects a template's configuration consists of. */
    function ConfigRepr(): set<object>
      reads this
    {
      if config.Some? then config.value.Repr() else {}
    }

    /** The configuration, if there is one, satisfies its class invariant. */
    predicate Valid()
      reads this, ConfigRepr()
    {
      config.Some? ==> config.value.Valid()
    }

    /** A new template: everything null; both timestamps are the current time. */
    constructor (now: int)
      ensures Valid()
      ensures id == None && name == None && description == None && config == None
      ensures createdAt == now && updatedAt == now
    {
      id, name, description, config := None, None, None, None;
      createdAt, updatedAt := now, now;
    }

    /** The two-argument constructor: a named template holding `config`. */
    constructor Named(n: Option<string>, c: Option<AnyConfig>, now: int)
      requires c.Some? ==> c.value.Valid()
      ensures Valid()
      ensures id == None && name == n && description == None && config == c
      ensures createdAt == now && updatedAt == now
    {
      id, name, description, config := None, n, None, c;
      createdAt, updatedAt := now, now;
    }

    /** The three-argument constructor: the two-argument one plus a description. */
    constructor Described(n: Option<string>, d: Option<string>, c: Option<AnyConfig>, now: int)
      requires c.Some? ==> c.value.Valid()
      ensures Valid()
      ensures id == None && name == n && description == d && config == c
      ensures createdAt == now && updatedAt == now
    {
      id, name, description, config := None, n, d, c;
      createdAt, updatedAt := now, now;
    }

    /** `updateTimestamp`: the update time becomes `now`; no other field changes. */
    method UpdateTimestamp(now: int)
      requires Valid()
      modifies this
      ensures Valid()
      ensures updatedAt == now
      ensures id == old(id) && name == old(name) && description == old(description)
      ensures config == old(config) && createdAt == old(createdAt)
    {
      updatedAt := now;
    }

    /**
     * `copy()`: a new template (fresh timestamps, no id) named after this one with the copy suffix,
     * with the same description and a separate copy of the configuration. A template without a
     * configuration makes `this.config.copy()` dereference null: that is the failure case.
     */
    method Copy(now: int) returns (r: Result<WatermarkTemplate, string>)
      requires Valid()
      ensures config.None? <==> r.Failure?
      ensures r.Success? ==>
        var t := r.value;
        fresh(t) && t.Valid() && t.id == None &&
        t.name == Some(JavaText(name) + COPY_SUFFIX) && t.description == description &&
        t.createdAt == now && t.updatedAt == now &&
        t.config.Some? && fresh(t.ConfigRepr()) &&
        t.config.value.View() == CopiedView(config.value.View())
    {
      if config.None? {
        return Failure("NullPointerException");
      }
      var c := CopyConfig(config.value);
      var t := new WatermarkTemplate.Described(Some(JavaText(name) + COPY_SUFFIX), description, Some(c), now);
      r := Success(t);
    }
  }
}
