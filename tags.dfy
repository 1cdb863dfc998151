/** The process-wide tag registry (`active_breakpoints`) and the activation helper. */
module Tags {

  /** The list of active tags. It only ever grows: tags are appended, duplicates kept,
      and membership is all that is ever asked of it. */
  class TagRegistry {
    var active: seq<string>

    /** The registry at process start: an empty list. */
    constructor ()
      ensures active == []
    {
      active := [];
    }

    /** `activate_breakpoint(tags)`: extends the registry in place with `tags`, in order,
        and hands back the registry object itself (a shared view, not a copy). */
    method Activate(tags: seq<string>) returns (r: TagRegistry)
      modifies this
      ensures active == old(active) + tags
      ensures r == this
    {
      active := active + tags;
      r := this;
    }
  }

  /** `any([tag in active_breakpoints for tag in tags])`: some tag of `tags` is active. */
  function AnyTagActive(tags: seq<string>, active: seq<string>): (r: bool)
    ensures r <==> exists i :: 0 <= i < |tags| && tags[i] in active
  {
    if tags == [] then false
    else tags[0] in active || AnyTagActive(tags[1..], active)
  }

  /** Growing the registry never switches a tag off: a breakpoint that qualifies by its tags
      keeps qualifying after any later activation. */
  lemma ActivationKeepsTagsActive(tags: seq<string>, active: seq<string>, more: seq<string>)
    requires AnyTagActive(tags, active)
    ensures AnyTagActive(tags, active + more)
  {
  }

  /** Activating a list that shares a tag with a breakpoint's tags makes that breakpoint
      qualify by its tags, whatever the registry held before. */
  lemma ActivationEnablesSharedTag(tags: seq<string>, active: seq<string>, activated: seq<string>, t: string)
    requires t in tags && t in activated
    ensures AnyTagActive(tags, active + activated)
  {
  }
}
