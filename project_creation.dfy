/**
 * The project-creation route (app/routes/projects.new.tsx): the form checks
 * that `action` runs before creating a project, the membership rows it asks
 * the database to create, and the member picker's `toggleMember`.
 *
 * The route does not call validateProjectName: it has its own, laxer name
 * rule (no minimum length, no markup check, and the length limit applies to
 * the untrimmed name). The lemmas at the end state the difference.
 */
module ProjectCreation {
  import opened Wrappers
  import opened JsStrings
  import Validation

  const NameRequired := "Project name is required"
  const NameTooLong := "Project name must be less than 100 characters"
  const DescriptionTooLong := "Description must be less than 500 characters"
  const CreateFailed := "Failed to create project. Please try again."

  /** The `errors` object of ActionData; a field is present when it is `Some`. */
  datatype FormErrors = FormErrors(name: Option<string>, description: Option<string>, form: Option<string>)
  {
    /** `Object.keys(errors).length > 0` */
    predicate Any() { name.Some? || description.Some? || form.Some? }
  }

  datatype Role = Owner | Member

  /** One row of `members.create`. */
  datatype MembershipRow = MembershipRow(userId: string, role: Role)

  /** The `data` handed to `prisma.project.create`. */
  datatype ProjectCreate = ProjectCreate(
    name: string, description: Option<string>, ownerId: string, members: seq<MembershipRow>)

  /**
   * What `action` returns: the validation errors, the project it created, or
   * the form error when the database refused the create.
   */
  datatype ActionResult =
    | Rejected(errors: FormErrors)
    | Created(project: ProjectCreate)
    | Failed(errors: FormErrors)

  // ---------------------------------------------------------------------------
  // the inline checks

  /** The name rule: missing or blank, else longer than 100 characters before trimming. */
  function NameError(name: Option<string>): (r: Option<string>)
    ensures r == Some(NameRequired) <==> name.None? || AllSpace(name.value)
    ensures r == Some(NameTooLong) <==> name.Some? && !AllSpace(name.value) && |name.value| > 100
    ensures r == None || r == Some(NameRequired) || r == Some(NameTooLong)
  {
    if name.None? || name.value == "" then Some(NameRequired)
    else
      TrimEmpty(name.value);
      if |Trim(name.value)| == 0 then Some(NameRequired)
      else if |name.value| > 100 then Some(NameTooLong)
      else None
  }

  /** The description rule: an absent or empty description is never too long. */
  function DescriptionError(description: Option<string>): (r: Option<string>)
    ensures r == Some(DescriptionTooLong) <==> description.Some? && |description.value| > 500
    ensures r == None || r == Some(DescriptionTooLong)
  {
    if description.Some? && description.value != "" && |description.value| > 500
    then Some(DescriptionTooLong)
    else None
  }

  /** `description?.trim() || null` */
  function StoredDescription(description: Option<string>): (r: Option<string>)
    ensures r == None <==> description.None? || AllSpace(description.value)
    ensures r.Some? ==> r.value == Trim(description.value)
  {
    if description.None? then None
    else
      TrimEmpty(description.value);
      var trimmed := Trim(description.value);
      if trimmed == "" then None else Some(trimmed)
  }

  // ---------------------------------------------------------------------------
  // the membership rows

  /** `memberIds.map((userId) => ({ userId, role: "member" }))` */
  function MemberRows(memberIds: seq<string>): (rows: seq<MembershipRow>)
    ensures |rows| == |memberIds|
    ensures forall i :: 0 <= i < |rows| ==> rows[i] == MembershipRow(memberIds[i], Member)
  {
    if memberIds == [] then []
    else [MembershipRow(memberIds[0], Member)] + MemberRows(memberIds[1..])
  }

  /** The owner's row first, then one member row per selected id, in input order. */
  function Memberships(ownerId: string, memberIds: seq<string>): (rows: seq<MembershipRow>)
    ensures |rows| == 1 + |memberIds|
    ensures rows[0] == MembershipRow(ownerId, Owner)
    ensures forall i :: 0 <= i < |memberIds| ==> rows[i + 1] == MembershipRow(memberIds[i], Member)
    ensures forall i :: 0 <= i < |rows| ==> (rows[i].role == Owner <==> i == 0)
  {
    [MembershipRow(ownerId, Owner)] + MemberRows(memberIds)
  }

  // ---------------------------------------------------------------------------
  // action

  /**
   * The part of `action` after the logout intent and `requireUser`: fill the
   * errors object field by field, return it if anything was recorded, and
   * otherwise build the create request. `storeSucceeds` is the outcome of
   * the database call, which is outside the model.
   */
  method CreateProjectAction(
    userId: string, name: Option<string>, description: Option<string>,
    memberIds: seq<string>, storeSucceeds: bool)
    returns (result: ActionResult)
    ensures result.Rejected? <==> NameError(name).Some? || DescriptionError(description).Some?
    ensures result.Rejected? ==> result.errors == FormErrors(NameError(name), DescriptionError(description), None)
    ensures result.Created? <==> !result.Rejected? && storeSucceeds
    ensures result.Created? ==>
      && name.Some?
      && result.project == ProjectCreate(Trim(name.value), StoredDescription(description), userId,
                                         Memberships(userId, memberIds))
    ensures result.Failed? ==> result.errors == FormErrors(None, None, Some(CreateFailed))
  {
    var errors := FormErrors(None, None, None);
    if name.None? || |Trim(name.value)| == 0 {
      errors := errors.(name := Some(NameRequired));
    } else if |name.value| > 100 {
      errors := errors.(name := Some(NameTooLong));
    }
    if description.Some? && description.value != "" && |description.value| > 500 {
      errors := errors.(description := Some(DescriptionTooLong));
    }
    if errors.Any() {
      return Rejected(errors);
    }
    var project := ProjectCreate(
      Trim(name.value), StoredDescription(description), userId, Memberships(userId, memberIds));
    if storeSucceeds {
      result := Created(project);
    } else {
      result := Failed(FormErrors(None, None, Some(CreateFailed)));
    }
  }

  // ---------------------------------------------------------------------------
  // toggleMember

  /** The selection after toggling `userId`: its membership flips, nobody else's changes. */
  function Toggled(selected: set<string>, userId: string): (r: set<string>)
    ensures userId in r <==> userId !in selected
    ensures forall other :: other != userId ==> (other in r <==> other in selected)
  {
    if userId in selected then selected - {userId} else selected + {userId}
  }

  /** Toggling the same id twice restores the selection. */
  lemma ToggledTwice(selected: set<string>, userId: string)
    ensures Toggled(Toggled(selected, userId), userId) == selected
  {
  }

  /** The member picker's `selectedMembers` state. */
  class MemberSelection {
    var selected: set<string>

    constructor ()
      ensures selected == {}
    {
      selected := {};
    }

    /** Copy the set, add or delete `userId`, and store the copy. */
    method ToggleMember(userId: string)
      modifies this
      ensures selected == Toggled(old(selected), userId)
    {
      var newSelected := selected;
      if userId in newSelected {
        newSelected := newSelected - {userId};
      } else {
        newSelected := newSelected + {userId};
      }
      selected := newSelected;
    }
  }

  // ---------------------------------------------------------------------------
  // the route's name rule against validateProjectName

  /** Every name validateProjectName accepts, if at most 100 characters untrimmed, passes the route too. */
  lemma {:induction false} ValidatorAcceptanceImpliesRoute(name: string)
    requires Validation.ValidateProjectName(name) == None && |name| <= 100
    ensures NameError(Some(name)) == None
  {
    TrimEmpty(name);
  }

  /** A name that is not blank but trims to one or two characters passes the route but not validateProjectName. */
  lemma RouteAcceptsShortNames(name: string)
    requires !AllSpace(name) && |Trim(name)| <= 2 && |name| <= 100
    ensures NameError(Some(name)) == None
    ensures Validation.ValidateProjectName(name) == Some("Project name must be at least 3 characters long")
  {
  }

  lemma RouteAcceptsShortName()
    ensures NameError(Some("ab")) == None
    ensures Validation.ValidateProjectName("ab") == Some("Project name must be at least 3 characters long")
  {
    assert !AllSpace("ab") by { assert !IsSpace("ab"[0]); }
    TrimUnpadded("ab");
    RouteAcceptsShortNames("ab");
  }

  lemma ScriptTagTrimmed()
    ensures Trim("<script>") == "<script>" && !AllSpace("<script>")
  {
    assert !IsSpace("<script>"[0]);
    TrimUnpadded("<script>");
  }

  lemma ScriptTagIsMarkup()
    ensures Validation.HasForbiddenMarkup("<script>")
  {
    assert "" + "<script" + ">" == "<script>";
    Validation.ForbiddenInAnyCase("", "<script", ">", 0);
  }

  /** A name of valid length whose trimmed text holds markup passes the route but not validateProjectName. */
  lemma RouteAcceptsMarkupNames(name: string)
    requires !AllSpace(name) && |name| <= 100 && 3 <= |Trim(name)|
    requires Validation.HasForbiddenMarkup(Trim(name))
    ensures NameError(Some(name)) == None
    ensures Validation.ValidateProjectName(name) == Some("Project name contains invalid characters")
  {
  }

  /** A name holding a script tag passes the route but not validateProjectName. */
  lemma RouteAcceptsMarkup()
    ensures NameError(Some("<script>")) == None
    ensures Validation.ValidateProjectName("<script>") == Some("Project name contains invalid characters")
  {
    ScriptTagTrimmed();
    ScriptTagIsMarkup();
    RouteAcceptsMarkupNames("<script>");
  }

  /**
   * Whitespace around a name counts toward the route's limit but not toward
   * validateProjectName's: a padded name over 100 characters is rejected by
   * the route whatever the validator says of it.
   */
  lemma {:induction false} RouteCountsPadding(lead: string, name: string, trail: string)
    requires AllSpace(lead) && AllSpace(trail) && !AllSpace(name)
    requires |lead + name + trail| > 100
    ensures NameError(Some(lead + name + trail)) == Some(NameTooLong)
    ensures Validation.ValidateProjectName(lead + name + trail) == Validation.ValidateProjectName(name)
  {
    assert !AllSpace(lead + name + trail) by {
      var i :| 0 <= i < |name| && !IsSpace(name[i]);
      assert (lead + name + trail)[|lead| + i] == name[i];
    }
    Validation.ValidatorsIgnorePadding(lead, name, trail);
  }
}
