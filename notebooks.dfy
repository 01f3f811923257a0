/**
 * The decisions of the notebook settings dialog (`NotebookContextDialog`
 * in notebook_context_dialog.py): renaming, deleting and exporting a
 * notebook, and the Type/Status labels.
 */
module Notebooks {
  import opened Text
  import opened Journal
  import opened Dialog
  import StorageModel

  /** Virtual folders of notebooks other than "Default" start with this. */
  const NotebooksPrefix := "notebooks/"

  /** What the dialog hands back to the main window. */
  datatype Action = Rename(newName: string) | Delete | Export

  datatype DialogState = DialogState(nameText: string, resultAction: Option<Action>, result: DialogResult)

  /** The notebook names among virtual folder paths: every folder starting with
      `notebooks/`, with each occurrence of `notebooks/` removed. */
  function ExistingNotebooks(folders: seq<string>): (r: seq<string>)
    ensures |r| <= |folders|
    ensures forall n :: n in r <==>
              exists f :: f in folders && StartsWith(f, NotebooksPrefix) && ReplaceAll(f, NotebooksPrefix, "") == n
  {
    if folders == [] then []
    else
      var rest := ExistingNotebooks(folders[1..]);
      assert forall f :: f in folders <==> f == folders[0] || f in folders[1..];
      if StartsWith(folders[0], NotebooksPrefix) then [ReplaceAll(folders[0], NotebooksPrefix, "")] + rest
      else rest
  }

  /** The outcome of the checks in `save_changes`, in their order. */
  datatype RenameCheck = EmptyName | Unchanged | ReservedName | DuplicateName | RenameTo(name: string)

  /** `folders` is None when listing the virtual folders raised; the duplicate
      check is then skipped. */
  function CheckRename(current: string, text: string, folders: Option<seq<string>>): (r: RenameCheck)
    ensures r == EmptyName <==> IsBlank(text)
    ensures r == Unchanged <==> !IsBlank(text) && Strip(text) == current
    ensures r == ReservedName <==> !IsBlank(text) && Strip(text) != current && Strip(text) == DefaultNotebook
    ensures r == DuplicateName <==>
              && !IsBlank(text) && Strip(text) != current && Strip(text) != DefaultNotebook
              && folders.Some? && Strip(text) in ExistingNotebooks(folders.value)
    ensures r.RenameTo? ==> r.name == Strip(text)
  {
    StripEmptyIffBlank(text);
    var newName := Strip(text);
    if newName == [] then EmptyName
    else if newName == current then Unchanged
    else if newName == DefaultNotebook then ReservedName
    else if folders.Some? && newName in ExistingNotebooks(folders.value) then DuplicateName
    else RenameTo(newName)
  }

  /** A rename goes through exactly when the stripped name is non-empty, new,
      not "Default" and, when the folders could be listed, not taken. */
  lemma {:induction false} RenameAccepted(current: string, text: string, folders: Option<seq<string>>, n: string)
    ensures CheckRename(current, text, folders) == RenameTo(n) <==>
              && n == Strip(text) && n != [] && n != current && n != DefaultNotebook
              && (folders.None? || n !in ExistingNotebooks(folders.value))
  {
    StripEmptyIffBlank(text);
  }

  /** `save_changes()`: the dialog state after the checks. */
  function SaveChangesStep(current: string, d: DialogState, folders: Option<seq<string>>): DialogState {
    match CheckRename(current, d.nameText, folders)
    case Unchanged => d.(result := Rejected)
    case RenameTo(n) => d.(resultAction := Some(Rename(n)), result := Accepted)
    case _ => d
  }

  /** Only a successful rename sets an action; a refusal of any kind leaves the
      action as it was. */
  lemma {:induction false} SaveChangesSetsActionOnlyOnRename(current: string, d: DialogState, folders: Option<seq<string>>)
    ensures var d' := SaveChangesStep(current, d, folders);
            && d'.nameText == d.nameText
            && (d'.resultAction != d.resultAction ==> d'.resultAction == Some(Rename(Strip(d.nameText))))
            && (IsBlank(d.nameText) ==> d' == d)
            && (d.resultAction == None ==>
                  (d'.resultAction != None <==> CheckRename(current, d.nameText, folders).RenameTo?))
  {
  }

  /** A folder created as `notebooks/<n>` in the secure storage makes `n` a
      taken name, so renaming another notebook to it is refused. */
  lemma {:induction false} MarkedNotebookIsTaken(order: seq<string>, folders: seq<string>, current: string, text: string, n: string)
    requires forall f :: f in folders <==> f in StorageModel.FolderSet(order)
    requires NotebooksPrefix + n + StorageModel.MarkerSuffix in order
    requires !Contains(NotebooksPrefix + n, StorageModel.MarkerSuffix) && !Contains(n, NotebooksPrefix)
    requires !IsBlank(text) && Strip(text) == n && n != current && n != DefaultNotebook
    ensures CheckRename(current, text, Some(folders)) == DuplicateName
  {
    var f := NotebooksPrefix + n;
    StorageModel.MarkerKeyGivesFolder(f);
    assert f + StorageModel.MarkerSuffix == NotebooksPrefix + n + StorageModel.MarkerSuffix;
    assert f in StorageModel.FolderSet(order);
    assert StartsWith(f, NotebooksPrefix) by {
      assert f[..|NotebooksPrefix|] == NotebooksPrefix;
    }
    ReplacePrefix(NotebooksPrefix, n, "");
    assert ReplaceAll(f, NotebooksPrefix, "") == n;
    assert n in ExistingNotebooks(folders);
  }

  /** The listing `save_changes` obtains through `entry_manager.secure_storage`.
      No class defines that attribute, so the lookup raises `AttributeError`,
      the `except Exception` swallows it, and the check never gets the folders. */
  function ListingAsWritten(folders: seq<string>): Option<seq<string>> {
    None
  }

  /** As written, renaming a notebook to the name of another notebook the
      storage holds is accepted; given the listing, the same rename is refused
      as a duplicate. */
  lemma {:induction false} DuplicateAcceptedAsWritten(order: seq<string>, folders: seq<string>, current: string,
                                                     d: DialogState, n: string)
    requires forall f :: f in folders <==> f in StorageModel.FolderSet(order)
    requires NotebooksPrefix + n + StorageModel.MarkerSuffix in order
    requires !Contains(NotebooksPrefix + n, StorageModel.MarkerSuffix) && !Contains(n, NotebooksPrefix)
    requires !IsBlank(d.nameText) && Strip(d.nameText) == n && n != current && n != DefaultNotebook
    ensures SaveChangesStep(current, d, ListingAsWritten(folders)).resultAction == Some(Rename(n))
    ensures SaveChangesStep(current, d, Some(folders)) == d
  {
    RenameAccepted(current, d.nameText, None, n);
    MarkedNotebookIsTaken(order, folders, current, d.nameText, n);
  }

  /** A string beginning with the pattern has that occurrence replaced first. */
  lemma {:induction false} ReplacePrefix(pat: string, rest: string, rep: string)
    requires pat != []
    ensures ReplaceAll(pat + rest, pat, rep) == rep + ReplaceAll(rest, pat, rep)
  {
    var s := pat + rest;
    assert s[..|pat|] == pat;
    assert s[|pat|..] == rest;
  }

  /** The Type and Status rows of the Information box. */
  function InfoLabels(name: string): (r: (string, string))
    ensures r.0 == "Default Notebook" <==> name == DefaultNotebook
    ensures r.1 == "Protected" <==> name == DefaultNotebook
    ensures name != DefaultNotebook ==> r == ("Custom Notebook", "Editable")
  {
    if name == DefaultNotebook then ("Default Notebook", "Protected") else ("Custom Notebook", "Editable")
  }

  class NotebookContextDialog {
    const notebookName: string
    var nameText: string
    var resultAction: Option<Action>
    var result: DialogResult

    function State(): DialogState
      reads this
    {
      DialogState(nameText, resultAction, result)
    }

    /** The name field starts with the notebook's name and no action is set. */
    constructor (name: string)
      ensures notebookName == name
      ensures State() == DialogState(name, None, Open)
    {
      notebookName := name;
      nameText := name;
      resultAction := None;
      result := Open;
    }

    /** The user edits the name field. */
    method EditName(text: string)
      modifies this
      ensures State() == old(State()).(nameText := text)
    {
      nameText := text;
    }

    /** `save_changes()`; `folders` is the storage's folder listing, or None
        when listing raised. */
    method SaveChanges(folders: Option<seq<string>>)
      modifies this
      ensures State() == SaveChangesStep(notebookName, old(State()), folders)
    {
      match CheckRename(notebookName, nameText, folders)
      case Unchanged =>
        result := Rejected;
      case RenameTo(newName) =>
        resultAction := Some(Rename(newName));
        result := Accepted;
      case _ =>
    }

    method ExportNotebook()
      modifies this
      ensures State() == old(State()).(resultAction := Some(Export), result := Accepted)
    {
      resultAction := Some(Export);
      result := Accepted;
    }

    /** `delete_notebook()`; `confirmed` is the answer to the confirmation question. */
    method DeleteNotebook(confirmed: bool)
      modifies this
      ensures notebookName == DefaultNotebook ==> State() == old(State())
      ensures notebookName != DefaultNotebook && confirmed ==>
                State() == old(State()).(resultAction := Some(Delete), result := Accepted)
      ensures !confirmed ==> State() == old(State())
    {
      if notebookName == DefaultNotebook {
        return;
      }
      if confirmed {
        resultAction := Some(Delete);
        result := Accepted;
      }
    }
  }
}
