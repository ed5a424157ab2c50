/**
 * The lamp-skills dialog: a multi-selection list of skills whose selection
 * is mirrored into the application's set of lamp skills, with a label that
 * enumerates the chosen skills.
 */
module LampSkillsDialog {
  import opened Selection
  import opened SkillsLabel

  /** The application store, reduced to the set of lamp skills it holds. */
  class IronQuest<Skill(==)> {
    var lampSkills: set<Skill>

    constructor (initial: set<Skill>)
      ensures lampSkills == initial
    {
      lampSkills := initial;
    }
  }

  lemma ElemsSnoc<T>(xs: seq<T>, x: T)
    ensures Elems(xs + [x]) == Elems(xs) + {x}
  {
    forall y ensures y in Elems(xs + [x]) <==> y in Elems(xs) + {x} {
      assert y in xs + [x] <==> y in xs || y == x;
    }
  }

  /**
   * The items of `items` that are in `chosen`, in the order of `items`: the
   * list view keeps its selected items in the order the items are listed.
   */
  function InItemOrder<T(==)>(items: seq<T>, chosen: set<T>): (r: seq<T>)
    ensures Elems(r) == chosen * Elems(items)
    ensures Distinct(items) ==> Distinct(r)
    decreases |items|
  {
    if items == [] then []
    else
      var init := items[..|items| - 1];
      var last := items[|items| - 1];
      var r := InItemOrder(init, chosen);
      assert items == init + [last];
      ElemsSnoc(init, last);
      ElemsSnoc(r, last);
      assert Distinct(items) ==> last !in Elems(init) by {
        if Distinct(items) {
          forall j | 0 <= j < |init| ensures init[j] != last {
            assert init[j] == items[j];
          }
        }
      }
      if last in chosen then r + [last] else r
  }

  /** Which items are selected depends only on the chosen items that are listed. */
  lemma {:induction false} InItemOrderListedOnly<T>(items: seq<T>, c: set<T>, d: set<T>)
    requires c * Elems(items) == d * Elems(items)
    ensures InItemOrder(items, c) == InItemOrder(items, d)
    decreases |items|
  {
    if items != [] {
      var init := items[..|items| - 1];
      assert items == init + [items[|items| - 1]];
      ElemsSnoc(init, items[|items| - 1]);
      forall y ensures y in c * Elems(init) <==> y in d * Elems(init) {
        assert y in Elems(init) ==> y in Elems(items);
        assert y in c * Elems(items) <==> y in d * Elems(items);
      }
      assert items[|items| - 1] in Elems(items);
      assert items[|items| - 1] in c * Elems(items) <==> items[|items| - 1] in d * Elems(items);
      InItemOrderListedOnly(init, c, d);
    }
  }

  /** With nothing chosen, nothing is selected. */
  lemma {:induction false} NothingChosen<T>(items: seq<T>)
    ensures InItemOrder(items, {}) == []
    decreases |items|
  {
    if items != [] {
      NothingChosen(items[..|items| - 1]);
    }
  }

  /**
   * The dialog. `items` are the skills the list view offers, `selection`
   * the list view's selected items, `labelText` the text of the skills label,
   * and `shown` the iteration order the label was last rendered in.
   */
  class LampSkillsChoice<Skill(==)> {
    const quest: IronQuest<Skill>
    const name: Skill -> string
    const items: seq<Skill>
    var selection: seq<Skill>
    var labelText: string
    ghost var shown: seq<Skill>

    /**
     * The list view offers each skill once; its selected items are offered
     * skills, each once, in the order they are offered.
     */
    ghost predicate Valid()
      reads this
    {
      Distinct(items) && selection == InItemOrder(items, Elems(selection))
    }

    /**
     * Opens the dialog over the offered skills: nothing is selected yet, then
     * the store's lamp skills are selected and the label rendered.
     */
    constructor (quest: IronQuest<Skill>, name: Skill -> string, items: seq<Skill>)
      requires Distinct(items)
      ensures Valid()
      ensures this.quest == quest && this.name == name && this.items == items
      ensures quest.lampSkills == old(quest.lampSkills)
      ensures Elems(selection) == quest.lampSkills * Elems(items)
      ensures Enumerates(shown, quest.lampSkills) && labelText == Summary(name, shown)
    {
      this.quest := quest;
      this.name := name;
      this.items := items;
      selection := [];
      labelText := "";
      shown := [];
      new;
      assert Elems(selection) == {};
      NothingChosen(items);
      SelectSkills();
    }

    /**
     * Selects one skill in the list view: an offered skill joins the selected
     * items at its place in the list; selecting it again, or selecting a skill
     * that is not offered, changes nothing.
     */
    method Select(s: Skill)
      requires Valid()
      modifies this`selection
      ensures Valid()
      ensures selection == InItemOrder(items, Elems(old(selection)) + {s})
      ensures Elems(selection) == old(Elems(selection)) + ({s} * Elems(items))
      ensures s !in items || s in old(selection) ==> selection == old(selection)
    {
      var chosen := Elems(selection) + {s};
      if s !in items || s in selection {
        InItemOrderListedOnly(items, chosen, Elems(selection));
      }
      selection := InItemOrder(items, chosen);
      InItemOrderListedOnly(items, Elems(selection), chosen);
    }

    /** Sets the label to the enumeration of `skills`, in the set's iteration order. */
    method UpdateSkillsLabel(skills: set<Skill>)
      modifies this`labelText, this`shown
      ensures Enumerates(shown, skills) && labelText == Summary(name, shown)
    {
      var text;
      text, shown := RenderSummary(name, skills);
      labelText := text;
    }

    /**
     * Seeds the dialog from the store: selects every lamp skill and renders
     * the label once. The store is only read.
     */
    method SelectSkills()
      requires Valid()
      modifies this`selection, this`labelText, this`shown
      ensures Valid()
      ensures quest.lampSkills == old(quest.lampSkills)
      ensures Elems(selection) == old(Elems(selection)) + (quest.lampSkills * Elems(items))
      ensures Enumerates(shown, quest.lampSkills) && labelText == Summary(name, shown)
    {
      var skills := quest.lampSkills;
      var rest := skills;
      while rest != {}
        invariant Valid()
        invariant rest <= skills
        invariant Elems(selection) == old(Elems(selection)) + ((skills - rest) * Elems(items))
        decreases rest
      {
        var s :| s in rest;
        Select(s);
        rest := rest - {s};
      }
      UpdateSkillsLabel(skills);
    }

    /**
     * The list view's listener: applies one batch of sub-changes to the
     * store's lamp skills in order, then renders the label once and writes
     * the set back to the store once. `current` is the full selected list
     * the change cursor reports, used to resynchronise after a fault.
     */
    method UpdateLampSkills(changes: seq<Change<Skill>>, current: seq<Skill>)
      requires Valid()
      modifies this`labelText, this`shown, quest
      ensures Valid()
      ensures quest.lampSkills == ApplyBatch(old(quest.lampSkills), changes, current)
      ensures Enumerates(shown, quest.lampSkills) && labelText == Summary(name, shown)
    {
      var skills := quest.lampSkills;
      var i := 0;
      while i < |changes|
        invariant 0 <= i <= |changes|
        invariant skills == ApplyBatch(old(quest.lampSkills), changes[..i], current)
      {
        assert changes[..i + 1][..i] == changes[..i];
        match changes[i] {
          case Updated =>
            // only logged
          case Permuted =>
            // only logged
          case AddRemove(added, removed, fault) =>
            var faulted := false;
            if |added| > 0 {
              if fault == OnAdded {
                faulted := true;
              } else {
                skills := skills + Elems(added);
              }
            }
            if !faulted && |removed| > 0 {
              if fault == OnRemoved {
                faulted := true;
              } else {
                skills := skills - Elems(removed);
              }
            }
            if faulted {
              skills := {};
              skills := skills + Elems(current);
            }
        }
        i := i + 1;
      }
      assert changes[..|changes|] == changes;
      UpdateSkillsLabel(skills);
      quest.lampSkills := skills;
    }
  }
}
