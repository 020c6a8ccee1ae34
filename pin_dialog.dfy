/** The form state of the add/edit location dialog
    (src/components/AddPinDialog.tsx): a title and two tag lists, each with
    its own text input, edited by key presses and remove buttons. */
module PinDialog {
  import opened Wrappers
  import JsString

  /** What the dialog hands to its `onSubmit` callback. */
  datatype FormData = FormData(title: string, assignees: seq<string>, targetFamilies: seq<string>)

  /** One tag list (assignees or target families) with its text input. */
  datatype TagField = TagField(tags: seq<string>, input: string)

  /** The keys that commit the typed text as a new tag. */
  predicate IsCommitKey(key: string) {
    key == "Enter" || key == ","
  }

  /** The key handler shared by both tag fields: a commit key adds the
      trimmed input when it is non-empty and not yet listed, and then clears
      the input; Backspace on an empty input drops the last tag. */
  function KeyDown(f: TagField, key: string): TagField {
    if IsCommitKey(key) then
      var value := JsString.Trim(f.input);
      if value != "" && value !in f.tags then TagField(f.tags + [value], "") else f
    else if key == "Backspace" && f.input == "" && |f.tags| > 0 then
      TagField(f.tags[..|f.tags| - 1], f.input)
    else f
  }

  /** `tags.filter((_, i) => i !== index)`. */
  function DropIndex(tags: seq<string>, index: int): (r: seq<string>)
    ensures 0 <= index < |tags| ==> r == tags[..index] + tags[index + 1..]
    ensures !(0 <= index < |tags|) ==> r == tags
  {
    if tags == [] then []
    else (if index == 0 then [] else [tags[0]]) + DropIndex(tags[1..], index - 1)
  }

  /** The tag list invariant: no empty entries and no entry twice. */
  predicate TagsValid(tags: seq<string>) {
    (forall i :: 0 <= i < |tags| ==> tags[i] != "") &&
    (forall i, j :: 0 <= i < j < |tags| ==> tags[i] != tags[j])
  }

  /** Backspace right after a successful commit takes the new tag back. */
  lemma BackspaceUndoesCommit(f: TagField, key: string)
    requires IsCommitKey(key) && KeyDown(f, key) != f
    ensures KeyDown(KeyDown(f, key), "Backspace").tags == f.tags
  {
    assert (f.tags + [JsString.Trim(f.input)])[..|f.tags|] == f.tags;
  }

  /** Pressing a commit key again right away adds nothing more: the first
      press has cleared the input, or changed nothing. */
  lemma CommitIdempotent(f: TagField, key: string)
    requires IsCommitKey(key)
    ensures KeyDown(KeyDown(f, key), key) == KeyDown(f, key)
  {
    JsString.TrimEmptyIff("");
  }

  /** Dropping the last index is what Backspace does to the list. */
  lemma DropLastIsBackspace(f: TagField)
    requires f.input == "" && |f.tags| > 0
    ensures DropIndex(f.tags, |f.tags| - 1) == KeyDown(f, "Backspace").tags
  {
    assert f.tags[|f.tags|..] == [];
  }

  /** Removing an in-range index takes out exactly that entry. */
  lemma {:induction false} DropIndexRemovesOne(tags: seq<string>, index: int)
    requires 0 <= index < |tags|
    ensures |DropIndex(tags, index)| == |tags| - 1
    ensures multiset(DropIndex(tags, index)) + multiset{tags[index]} == multiset(tags)
  {
    assert tags == tags[..index] + [tags[index]] + tags[index + 1..];
  }

  /** Every edit of a tag field keeps the list free of empty entries and
      duplicates. */
  lemma KeyDownKeepsValid(f: TagField, key: string)
    requires TagsValid(f.tags)
    ensures TagsValid(KeyDown(f, key).tags)
  {
    if IsCommitKey(key) {
      var value := JsString.Trim(f.input);
      if value != "" && value !in f.tags {
        var t := f.tags + [value];
        forall i, j | 0 <= i < j < |t| ensures t[i] != t[j] {
          if j == |f.tags| {
            assert t[i] in f.tags;
          }
        }
      }
    }
  }

  lemma DropIndexKeepsValid(tags: seq<string>, index: int)
    requires TagsValid(tags)
    ensures TagsValid(DropIndex(tags, index))
  {
    if 0 <= index < |tags| {
      var r := DropIndex(tags, index);
      assert forall i :: 0 <= i < |r| ==> r[i] == (if i < index then tags[i] else tags[i + 1]);
    }
  }

  /** A committed tag carries no white space at either end. */
  lemma CommittedTagIsTrimmed(f: TagField, key: string)
    requires IsCommitKey(key) && KeyDown(f, key) != f
    ensures var t := KeyDown(f, key).tags; JsString.Trim(t[|t| - 1]) == t[|t| - 1]
  {
    JsString.TrimIdempotent(f.input);
  }

  /** The whole form. */
  datatype FormState = FormState(title: string, assignees: TagField, families: TagField)

  /** All five fields empty. */
  const EmptyForm := FormState("", TagField([], ""), TagField([], ""))

  /** What `handleSubmit` hands to `onSubmit`: nothing when the title trims
      to empty, else the trimmed title and the two lists. */
  function Submission(s: FormState): Option<FormData> {
    var title := JsString.Trim(s.title);
    if title == "" then None else Some(FormData(title, s.assignees.tags, s.families.tags))
  }

  /** Submitting emits exactly when the title has visible text; what it
      emits is that text trimmed, with the lists unchanged. */
  lemma SubmissionIff(s: FormState)
    ensures Submission(s).Some? <==> exists i :: 0 <= i < |s.title| && !JsString.IsJsSpace(s.title[i])
    ensures Submission(s).Some? ==>
      (&& Submission(s).value.title == JsString.Trim(s.title)
       && Submission(s).value.title != ""
       && Submission(s).value.assignees == s.assignees.tags
       && Submission(s).value.targetFamilies == s.families.tags)
  {
    JsString.TrimEmptyIff(s.title);
  }

  /** The form state of the dialog. */
  class PinForm {
    var title: string
    var assignees: seq<string>
    var assigneeInput: string
    var targetFamilies: seq<string>
    var familyInput: string

    function State(): FormState
      reads this
    {
      FormState(title, TagField(assignees, assigneeInput), TagField(targetFamilies, familyInput))
    }

    constructor ()
      ensures State() == EmptyForm
    {
      title := "";
      assignees := [];
      assigneeInput := "";
      targetFamilies := [];
      familyInput := "";
    }

    /** Typing into the title input. */
    method SetTitle(text: string)
      modifies this
      ensures State() == old(State()).(title := text)
    {
      title := text;
    }

    /** Typing into the assignee input. */
    method SetAssigneeInput(text: string)
      modifies this
      ensures State() == old(State()).(assignees := TagField(assignees, text))
    {
      assigneeInput := text;
    }

    /** Typing into the family input. */
    method SetFamilyInput(text: string)
      modifies this
      ensures State() == old(State()).(families := TagField(targetFamilies, text))
    {
      familyInput := text;
    }

    /** `handleAssigneeKeyDown`. */
    method AssigneeKeyDown(key: string)
      modifies this
      ensures State() == old(State()).(assignees := KeyDown(old(State()).assignees, key))
    {
      var f := KeyDown(TagField(assignees, assigneeInput), key);
      assignees := f.tags;
      assigneeInput := f.input;
    }

    /** `handleFamilyKeyDown`: the same handling on the other field. */
    method FamilyKeyDown(key: string)
      modifies this
      ensures State() == old(State()).(families := KeyDown(old(State()).families, key))
    {
      var f := KeyDown(TagField(targetFamilies, familyInput), key);
      targetFamilies := f.tags;
      familyInput := f.input;
    }

    /** `removeAssignee`. */
    method RemoveAssignee(index: int)
      modifies this
      ensures State() == old(State()).(assignees := TagField(DropIndex(old(assignees), index), assigneeInput))
    {
      assignees := DropIndex(assignees, index);
    }

    /** `removeFamily`. */
    method RemoveFamily(index: int)
      modifies this
      ensures State() == old(State()).(families := TagField(DropIndex(old(targetFamilies), index), familyInput))
    {
      targetFamilies := DropIndex(targetFamilies, index);
    }

    /** `handleSubmit`: emits the submission and then resets all five
        fields; with a blank title it emits nothing and changes nothing. */
    method Submit() returns (emitted: Option<FormData>)
      modifies this
      ensures emitted == Submission(old(State()))
      ensures State() == if emitted.Some? then EmptyForm else old(State())
    {
      var value := JsString.Trim(title);
      if value == "" {
        return None;
      }
      emitted := Some(FormData(value, assignees, targetFamilies));
      title := "";
      assignees := [];
      assigneeInput := "";
      targetFamilies := [];
      familyInput := "";
    }

    /** `handleCancel`: resets all five fields (the host's `onClose` is
        `MapScreen.CancelDialog`). */
    method Cancel()
      modifies this
      ensures State() == EmptyForm
    {
      title := "";
      assignees := [];
      assigneeInput := "";
      targetFamilies := [];
      familyInput := "";
    }

    /** The edit-mode effect: the title and both lists are taken from the
        initial data; the two inputs are left as they are. */
    method InitFromEdit(editMode: bool, initial: Option<FormData>)
      modifies this
      ensures editMode && initial.Some? ==>
        State() == FormState(initial.value.title,
                             TagField(initial.value.assignees, old(assigneeInput)),
                             TagField(initial.value.targetFamilies, old(familyInput)))
      ensures !(editMode && initial.Some?) ==> State() == old(State())
    {
      if editMode && initial.Some? {
        title := initial.value.title;
        assignees := initial.value.assignees;
        targetFamilies := initial.value.targetFamilies;
      }
    }
  }
}
