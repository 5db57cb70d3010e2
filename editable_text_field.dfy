/**
 * The `EditableTextField` component: a labelled value that switches between a
 * read-only view and an inline editor, persists its text in `localStorage`
 * under `storageKey` and optionally hands a committed value to an `onChange`
 * callback.
 *
 * The derived outputs of a render (the initial value, the empty-field
 * warning, the text shown in view mode, the Save button's enabled state) are
 * functions of the props and the state; the event handlers are methods of the
 * class `EditableTextField`, each one atomic step on its state and on the
 * shared store.
 */
module EditableField {
  import opened Wrappers
  import opened JsString
  import opened Storage

  /**
   * The props the component reads. `value` is `value?: string | null`, with
   * `undefined` and `null` both `None`; `isRequired` is `None` when the prop is
   * omitted; `hasOnChange` says whether an `onChange` callback was supplied.
   * The typography `variant` only affects rendering and is not modelled.
   */
  datatype Props = Props(
    value: Option<string>,
    fallback: Option<string>,
    hasOnChange: bool,
    isRequired: Option<bool>,
    storageKey: string)

  /** The destructuring default `isRequired = true`. */
  function Required(p: Props): (r: bool)
    ensures p.isRequired.None? ==> r
    ensures p.isRequired.Some? ==> r == p.isRequired.value
  {
    p.isRequired.GetOr(true)
  }

  /** JavaScript truthiness of a `string | null`: present and not the empty string. */
  predicate Truthy(v: Option<string>) {
    v.Some? && v.value != ""
  }

  /** JavaScript truthiness of `v?.trim()`: present and not whitespace only. */
  predicate HasContent(v: Option<string>)
    ensures HasContent(v) <==> v.Some? && !Blank(v.value)
  {
    if v.None? then false
    else
      TrimEmptyIffBlank(v.value);
      Trim(v.value) != ""
  }

  /**
   * The lazy initial state `localStorage.getItem(storageKey) || value || ''`:
   * a stored empty string is falsy and falls through to `value`.
   */
  function InitialValue(stored: Option<string>, value: Option<string>): (r: string)
    ensures r == "" <==> !Truthy(stored) && !Truthy(value)
    ensures Truthy(stored) ==> Some(r) == stored
    ensures r != "" ==> Some(r) == stored || Some(r) == value
  {
    if Truthy(stored) then stored.value
    else if Truthy(value) then value.value
    else ""
  }

  /**
   * The value reloaded from storage by the resync effect and by Cancel:
   * `storedValue !== null ? storedValue : (value || '')`. Any stored item,
   * the empty string included, wins.
   */
  function ReloadValue(stored: Option<string>, value: Option<string>): (r: string)
    ensures stored.Some? ==> Some(r) == stored
    ensures stored.None? ==> (r == "" <==> !Truthy(value))
    ensures stored.None? && r != "" ==> Some(r) == value
  {
    if stored.Some? then stored.value
    else if Truthy(value) then value.value
    else ""
  }

  /**
   * The initialiser's `||` and the reload's `!== null` disagree exactly when
   * the store holds the empty string and the `value` prop is non-empty.
   */
  lemma InitialDiffersFromReload(stored: Option<string>, value: Option<string>)
    ensures InitialValue(stored, value) != ReloadValue(stored, value)
        <==> stored == Some("") && Truthy(value)
  {
  }

  /**
   * `showEmptyFieldWarning = isRequired && !inputValue?.trim() && editing`,
   * and the warning is rendered when that holds and `isRequired` holds.
   * It is never shown in view mode.
   */
  function ShowEmptyFieldWarning(isRequired: bool, editing: bool, inputValue: Option<string>): (r: bool)
    ensures r <==> isRequired && editing && (inputValue.None? || Blank(inputValue.value))
    ensures !editing ==> !r
  {
    var show := isRequired && !HasContent(inputValue) && editing;
    show && isRequired
  }

  /**
   * The text shown in view mode, `inputValue && inputValue !== "" ? inputValue : fallback`:
   * the working value unless it is null or empty, else the fallback (which may be absent).
   */
  function DisplayText(inputValue: Option<string>, fallback: Option<string>): (r: Option<string>)
    ensures r == inputValue || r == fallback
    ensures Truthy(inputValue) ==> r == inputValue
    ensures r != fallback ==> r.Some? && r.value != ""
  {
    if Truthy(inputValue) && inputValue.value != "" then inputValue else fallback
  }

  /**
   * The Save button is enabled, `!(submitting || !inputValue?.trim())`, exactly
   * when no commit is in flight and the working value has a non-whitespace character.
   */
  function SaveEnabled(submitting: bool, inputValue: Option<string>): (r: bool)
    ensures r <==> !submitting && inputValue.Some? && !Blank(inputValue.value)
  {
    !(submitting || !HasContent(inputValue))
  }

  /**
   * Save and Submit test the same text: an enabled Save button always commits;
   * Submit (and so the Enter key) ignores `submitting`; and whenever the
   * warning is up, Save is disabled and Submit does nothing. With `isRequired`
   * false a blank value shows no warning yet still cannot be committed.
   */
  lemma SaveAndWarningAgreeWithSubmit(
    isRequired: bool, editing: bool, submitting: bool, inputValue: Option<string>)
    ensures SaveEnabled(submitting, inputValue) <==> !submitting && HasContent(inputValue)
    ensures ShowEmptyFieldWarning(isRequired, editing, inputValue) ==>
              !HasContent(inputValue) && !SaveEnabled(submitting, inputValue)
    ensures !isRequired && !HasContent(inputValue) ==>
              !ShowEmptyFieldWarning(isRequired, editing, inputValue) && !SaveEnabled(submitting, inputValue)
  {
  }

  /**
   * Whatever Submit commits is truthy, so a later mount reads it back through
   * either path, and view mode displays it.
   */
  lemma CommittedValueReadBack(s: string, value: Option<string>, fallback: Option<string>)
    requires HasContent(Some(s))
    ensures InitialValue(Some(s), value) == s
    ensures ReloadValue(Some(s), value) == s
    ensures DisplayText(Some(s), fallback) == Some(s)
  {
  }

  /** One mounted instance of the component. */
  class EditableTextField {
    /** The process-wide `localStorage` this instance reads and writes. */
    const storage: LocalStorage
    var props: Props
    var editing: bool
    /** The working value; the `string | null` state of the source. */
    var inputValue: Option<string>
    var submitting: bool

    /**
     * Between two handler steps: the working value is never null (every
     * write to it stores a string) and no commit is in flight.
     */
    ghost predicate Valid()
      reads this
    {
      inputValue.Some? && !submitting
    }

    /** The empty-field warning for this instance, with `isRequired` defaulting to true. */
    function EmptyFieldWarning(): (r: bool)
      reads this
      ensures r <==> Required(props) && editing && (inputValue.None? || Blank(inputValue.value))
      ensures props.isRequired.None? && editing && inputValue == Some("") ==> r
    {
      ShowEmptyFieldWarning(Required(props), editing, inputValue)
    }

    /** Whether this instance's Save button is enabled. */
    function SaveButtonEnabled(): (r: bool)
      reads this
      ensures r ==> !submitting && !EmptyFieldWarning()
      ensures r <==> !submitting && HasContent(inputValue)
    {
      SaveEnabled(submitting, inputValue)
    }

    /**
     * The first render: the state hooks' initial values, reading the store
     * once. Mounting is this constructor followed by `SyncFromStorage`, the
     * effect React runs after that first render.
     */
    constructor (storage: LocalStorage, props: Props)
      ensures Valid()
      ensures this.storage == storage && this.props == props
      ensures !editing
      ensures inputValue == Some(InitialValue(storage.GetItem(props.storageKey), props.value))
    {
      this.storage := storage;
      this.props := props;
      editing := false;
      inputValue := Some(InitialValue(storage.GetItem(props.storageKey), props.value));
      submitting := false;
    }

    /**
     * The resync effect: run after mounting and after any render whose
     * `value` or `storageKey` changed. It reloads the working value from the
     * store and writes nothing.
     */
    method SyncFromStorage()
      requires Valid()
      modifies this`inputValue
      ensures Valid()
      ensures inputValue == Some(ReloadValue(storage.GetItem(props.storageKey), props.value))
      ensures unchanged(storage)
    {
      var stored := storage.GetItem(props.storageKey);
      inputValue := Some(ReloadValue(stored, props.value));
    }

    /**
     * A re-render with new props: the effect's dependency list is
     * `[value, storageKey]`, so only a change to one of those reloads.
     */
    method Rerender(next: Props)
      requires Valid()
      modifies this`props, this`inputValue
      ensures Valid() && props == next
      ensures old(props.value) != next.value || old(props.storageKey) != next.storageKey ==>
                inputValue == Some(ReloadValue(storage.GetItem(next.storageKey), next.value))
      ensures old(props.value) == next.value && old(props.storageKey) == next.storageKey ==>
                inputValue == old(inputValue)
      ensures unchanged(storage)
    {
      var changed := props.value != next.value || props.storageKey != next.storageKey;
      props := next;
      if changed {
        SyncFromStorage();
      }
    }

    /** The edit button of view mode: switch to the editor. */
    method StartEditing()
      requires Valid()
      modifies this`editing
      ensures Valid() && editing
      ensures EmptyFieldWarning() <==> Required(props) && !HasContent(inputValue)
    {
      editing := true;
    }

    /**
     * `handleSubmit`. When the working value has a non-whitespace character
     * it writes the untrimmed value under `storageKey`, hands it to
     * `onChange` if there is one, and leaves edit mode; otherwise nothing
     * changes, whatever `isRequired` says. Nothing here tests `submitting`:
     * only the Save button does. `onArg` is the argument `onChange`
     * receives, `None` when it is not called; the callback does not touch the
     * store.
     */
    method Submit() returns (onArg: Option<string>)
      requires inputValue.Some?
      modifies this`editing, this`submitting, storage
      ensures inputValue == old(inputValue)
      ensures HasContent(old(inputValue)) ==>
                storage.items == old(storage.items)[props.storageKey := old(inputValue).value]
                && !editing && !submitting
                && onArg == (if props.hasOnChange then old(inputValue) else None)
      ensures !HasContent(old(inputValue)) ==>
                storage.items == old(storage.items) && editing == old(editing)
                && submitting == old(submitting) && onArg == None
    {
      onArg := None;
      var proceed := HasContent(inputValue);
      if proceed {
        var v, key := inputValue.value, props.storageKey;
        submitting := true;
        storage.SetItem(key, v);
        // the awaited `onChange(v)`: it returns without touching the store
        onArg := if props.hasOnChange then Some(v) else None;
        submitting := false;
        editing := false;
      }
    }

    /**
     * `handleCancel`: discard the working value, reload it from the store
     * (any stored item, even ""), else `value || ''`, and leave edit mode.
     */
    method Cancel()
      requires Valid()
      modifies this`inputValue, this`editing
      ensures Valid() && !editing && !EmptyFieldWarning()
      ensures inputValue == Some(ReloadValue(storage.GetItem(props.storageKey), props.value))
      ensures unchanged(storage)
    {
      var stored := storage.GetItem(props.storageKey);
      inputValue := Some(ReloadValue(stored, props.value));
      editing := false;
    }

    /**
     * `handleKeyDown`: the Enter key submits, without the `submitting` test
     * that disables the Save button, so it writes the store even when
     * `submitting` is already true; every other key does nothing.
     */
    method KeyDown(key: string) returns (onArg: Option<string>)
      requires inputValue.Some?
      modifies this`editing, this`submitting, storage
      ensures inputValue == old(inputValue)
      ensures key == "Enter" && HasContent(old(inputValue)) ==>
                storage.items == old(storage.items)[props.storageKey := old(inputValue).value]
                && !editing && !submitting
                && onArg == (if props.hasOnChange then old(inputValue) else None)
      ensures key != "Enter" || !HasContent(old(inputValue)) ==>
                storage.items == old(storage.items) && editing == old(editing)
                && submitting == old(submitting) && onArg == None
    {
      onArg := None;
      if key == "Enter" {
        onArg := Submit();
      }
    }

    /**
     * `handleOnChange`: a keystroke replaces the working value with the
     * input's text less one trailing line feed; the store is not written.
     */
    method Change(text: string)
      requires Valid()
      modifies this`inputValue
      ensures Valid() && editing == old(editing)
      ensures EndsWithNewline(text) ==> inputValue == Some(text[..|text| - 1])
      ensures !EndsWithNewline(text) ==> inputValue == Some(text)
      ensures unchanged(storage)
    {
      inputValue := Some(StripTrailingNewline(text));
    }
  }

  /**
   * A fresh field with nothing stored shows its fallback; after typing "50"
   * and submitting it shows "50", which is now stored under its key.
   */
  method EnterAmountScenario() {
    var storage := new LocalStorage(map[]);
    var field := new EditableTextField(storage, Props(None, Some("Enter amount"), false, None, "x"));
    field.SyncFromStorage();
    assert DisplayText(field.inputValue, field.props.fallback) == Some("Enter amount");
    field.StartEditing();
    field.Change("50");
    assert HasContent(Some("50")) by {
      assert "50"[0] == '5' && !IsWhitespace('5');
    }
    var onArg := field.Submit();
    assert !field.editing && storage.items["x"] == "50";
    assert DisplayText(field.inputValue, field.props.fallback) == Some("50");
  }

  /** Cancelling reverts the typed text to the stored one without writing. */
  method CancelRevertsScenario() {
    var storage := new LocalStorage(map["budget" := "100"]);
    var field := new EditableTextField(storage, Props(None, None, true, None, "budget"));
    field.SyncFromStorage();
    assert field.inputValue == Some("100");
    field.StartEditing();
    field.Change("999");
    field.Cancel();
    assert field.inputValue == Some("100") && storage.items == map["budget" := "100"];
  }

  /**
   * A value committed by one instance, typed with a stray line break, is
   * handed to `onChange` without it and is what a later instance mounts with.
   */
  method RemountScenario() {
    var storage := new LocalStorage(map[]);
    var p := Props(None, None, true, None, "mainBudget");
    var field := new EditableTextField(storage, p);
    field.SyncFromStorage();
    field.StartEditing();
    assert field.EmptyFieldWarning();
    assert EndsWithNewline("Groceries\n") && "Groceries\n"[..9] == "Groceries";
    field.Change("Groceries\n");
    assert HasContent(Some("Groceries")) by {
      assert "Groceries"[0] == 'G' && !IsWhitespace('G');
    }
    var onArg := field.Submit();
    assert onArg == Some("Groceries");
    var again := new EditableTextField(storage, p);
    assert again.inputValue == Some("Groceries");
    again.SyncFromStorage();
    assert again.inputValue == Some("Groceries");
  }
}
