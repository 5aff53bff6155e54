/**
 * The handlers that connect user actions to the registry: submitting the form,
 * saving an edited title, and clicking a project's delete button. The page
 * itself (reading the input, sanitising it, redrawing) is left to the caller;
 * these methods receive the text and the element id the page would supply.
 */
module Controller {
  import opened Options
  import opened Registry
  import opened ElementIds

  /**
   * Form submission with the already sanitised input: the empty string creates
   * nothing; any other input, white space included, becomes a new project at
   * the end of the list.
   */
  method SubmitProject(store: ProjectStore, clean: string) returns (created: Option<Project>)
    requires store.Valid()
    modifies store
    ensures store.Valid()
    ensures clean == "" ==> created == None && store.allProjects == old(store.allProjects)
    ensures clean != "" ==> created == Some(Project(NextFreeId(old(store.allProjects)), clean))
                            && store.allProjects == old(store.allProjects) + [created.value]
  {
    if clean != "" {
      var p := store.AddProject(clean);
      created := Some(p);
    } else {
      created := None;
    }
  }

  /**
   * Enter in a title field: the id read back from the list item's element id
   * gets the new title. The list item must belong to a project in the registry.
   */
  method SaveTitle(store: ProjectStore, elementId: string, newTitle: string)
    requires store.Valid()
    requires DecodeElementId(elementId).Some?
    requires HasId(store.allProjects, DecodeElementId(elementId).value)
    modifies store
    ensures store.Valid()
    ensures store.allProjects == Retitled(old(store.allProjects), DecodeElementId(elementId).value, newTitle)
  {
    var id := DecodeElementId(elementId).value;
    store.UpdateTitle(newTitle, id);
  }

  /**
   * A click on a delete button: an empty element id does nothing, an element
   * id that reads as NaN removes nothing, any other removes its project if present.
   */
  method DeleteProject(store: ProjectStore, elementId: string)
    requires store.Valid()
    modifies store
    ensures store.Valid()
    ensures store.allProjects ==
            if elementId == "" || DecodeElementId(elementId).None? then old(store.allProjects)
            else Without(old(store.allProjects), DecodeElementId(elementId).value)
  {
    var decoded := DecodeElementId(elementId);
    if elementId != "" {
      match decoded {
        case Some(id) => store.DeleteData(id);
        case None =>
      }
    }
  }

  /** Saving a title in the list item of project `id` retitles exactly that project. */
  lemma SaveTitleTargetsItsProject(ps: seq<Project>, k: nat, newTitle: string)
    requires IdsIncreasing(ps) && k < |ps|
    ensures DecodeElementId(ElementId(ps[k].id)) == Some(ps[k].id)
    ensures Retitled(ps, ps[k].id, newTitle) == ps[k := Project(ps[k].id, newTitle)]
  {
    DecodeElementIdRoundTrip(ps[k].id);
    RetitledIsUpdate(ps, k, newTitle);
  }

  /** Deleting through the list item of the project at index k removes that one project. */
  lemma DeleteTargetsItsProject(ps: seq<Project>, k: nat)
    requires IdsIncreasing(ps) && k < |ps|
    ensures DecodeElementId(ElementId(ps[k].id)) == Some(ps[k].id)
    ensures Without(ps, ps[k].id) == ps[..k] + ps[k + 1..]
  {
    DecodeElementIdRoundTrip(ps[k].id);
    WithoutIsSplice(ps, k);
  }
}
