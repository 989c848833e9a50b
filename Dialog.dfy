/**
 * The "add new sighting" dialog: its open flag, the draft fields, the
 * species list loaded from the server, the per-field error messages, and
 * the handlers that change them. Network outcomes arrive as the events
 * `OnSpeciesLoaded` and `OnCreateSucceeded`.
 */
module Dialog {
  import opened Optional
  import opened Validation
  import opened DateFormat

  /**
   * The body `submitNewSighting` posts. `dateTimeText` is the text
   * `date + "|" + time` handed to the date library with the format
   * `DD.MM.YYYY|HH:mm`; the conversion itself is not modelled.
   */
  datatype NewSighting = NewSighting(species: Option<string>, description: string, dateTimeText: string, count: CountValue)

  /** The whole component state, for stating what a handler leaves alone. */
  datatype Form = Form(
    open: bool, date: string, time: string, selSpecies: Option<string>, description: string,
    species: seq<string>, count: CountValue, errors: map<Field, string>)

  /** The state a freshly created dialog starts in. */
  const InitialForm: Form := Form(false, "", "", Some(""), "", [], Num(1.0), map[])

  /** The selection after a reset: the first loaded species, `undefined` if there is none. */
  function FirstSpecies(species: seq<string>): (r: Option<string>)
    ensures |species| > 0 ==> SpeciesKnown(r, species)
    ensures r.None? <==> |species| == 0
  {
    if |species| > 0 then Some(species[0]) else None
  }

  class DuckDialogButton {
    var open: bool
    var date: string
    var time: string
    var selSpecies: Option<string>
    var description: string
    var species: seq<string>
    var count: CountValue
    var errors: map<Field, string>

    function State(): Form
      reads this
    {
      Form(open, date, time, selSpecies, description, species, count, errors)
    }

    function CurrentDraft(): Draft
      reads this
    {
      Draft(date, time, selSpecies, description, count)
    }

    constructor ()
      ensures State() == InitialForm
    {
      open, date, time, selSpecies, description := false, "", "", Some(""), "";
      species, count, errors := [], Num(1.0), map[];
    }

    /** The species list arrived: keep it, and select its first entry if there is one. */
    method OnSpeciesLoaded(names: seq<string>)
      modifies this
      ensures State() == old(State()).(species := names,
        selSpecies := if |names| > 0 then Some(names[0]) else old(selSpecies))
      ensures |names| > 0 ==> SpeciesKnown(selSpecies, species)
    {
      species := names;
      if |names| > 0 { selSpecies := Some(names[0]); }
    }

    /** Opening changes only the flag: a draft left from before is still there. */
    method HandleOpen()
      modifies this
      ensures State() == old(State()).(open := true)
    {
      open := true;
    }

    /** Closing changes only the flag. */
    method HandleClose()
      modifies this
      ensures State() == old(State()).(open := false)
    {
      open := false;
    }

    method HandleDateChange(picked: Moment)
      modifies this
      ensures State() == old(State()).(date := FormatDate(picked))
      ensures !Fails(CurrentDraft(), species, Date)
    {
      date := FormatDate(picked);
    }

    method HandleTimeChange(picked: Moment)
      modifies this
      ensures State() == old(State()).(time := FormatTime(picked))
      ensures !Fails(CurrentDraft(), species, Time)
    {
      time := FormatTime(picked);
    }

    /** `species[i]`, which is `undefined` for an index outside the list. */
    method HandleSpeciesChange(i: int)
      modifies this
      ensures State() == old(State()).(selSpecies := if 0 <= i < |species| then Some(species[i]) else None)
      ensures SpeciesKnown(selSpecies, species) <==> 0 <= i < |species|
    {
      selSpecies := if 0 <= i < |species| then Some(species[i]) else None;
    }

    method HandleDescChange(desc: string)
      modifies this
      ensures State() == old(State()).(description := desc)
    {
      description := desc;
    }

    method HandleCountChange(n: CountValue)
      modifies this
      ensures State() == old(State()).(count := n)
    {
      count := n;
    }

    /**
     * Validate, store the messages, and hand back the body to post when
     * (and only when) no check failed.
     */
    method HandleSubmit() returns (request: Option<NewSighting>)
      modifies this
      ensures State() == old(State()).(errors := Errors(old(CurrentDraft()), old(species)))
      ensures request.Some? <==> errors == map[]
      ensures request.Some? ==> request.value == NewSighting(selSpecies, description, date + "|" + time, count)
    {
      var e := ValidateDraft(CurrentDraft(), species);
      errors := e;
      if |errors| == 0 {
        request := Some(NewSighting(selSpecies, description, date + "|" + time, count));
      } else {
        request := None;
      }
    }

    /** The post succeeded: clear the draft, select the first species again, and close. */
    method OnCreateSucceeded()
      modifies this
      ensures State() == old(State()).(selSpecies := FirstSpecies(old(species)), date := "", time := "",
        description := "", count := Num(1.0), open := false)
    {
      selSpecies := FirstSpecies(species);
      date, time, description := "", "", "";
      count := Num(1.0);
      open := false;
    }
  }

  /**
   * A full creation: Mallard seen near a pond on 5 March 2020 at 14:30,
   * two birds. The body posted carries the picked values, and afterwards
   * the draft is back to its defaults with Mallard selected and the dialog
   * closed.
   */
  method CreateMallardSighting() returns (request: Option<NewSighting>, after: Form)
    ensures request == Some(NewSighting(Some("Mallard"), "seen near pond", "5.3.2020|14:30", Num(2.0)))
    ensures after == Form(false, "", "", Some("Mallard"), "", ["Mallard", "Redhead"], Num(1.0), map[])
  {
    var names := ["Mallard", "Redhead"];
    var picked := Moment(2020, 2, 5, 14, 30);
    FormatDateExample();
    FormatTimeExamples();
    DateTimeTextExample();
    var dialog := new DuckDialogButton();
    dialog.OnSpeciesLoaded(names);
    dialog.HandleOpen();
    dialog.HandleDateChange(picked);
    dialog.HandleTimeChange(picked);
    dialog.HandleSpeciesChange(0);
    dialog.HandleDescChange("seen near pond");
    dialog.HandleCountChange(Num(2.0));
    assert dialog.State() == Form(true, "5.3.2020", "14:30", Some("Mallard"), "seen near pond", names, Num(2.0), map[]);
    var draft := Draft("5.3.2020", "14:30", Some("Mallard"), "seen near pond", Num(2.0));
    assert dialog.CurrentDraft() == draft && dialog.species == names;
    assert Errors(draft, names) == map[] by {
      assert names[0] == "Mallard";
      SubmitAllowedIff(draft, names);
    }
    request := dialog.HandleSubmit();
    dialog.OnCreateSucceeded();
    after := dialog.State();
  }

  /**
   * A submit before anything was entered and with no species loaded,
   * after the count text was cleared: nothing is posted and all five
   * messages are shown.
   */
  method SubmitEmptyDraft() returns (request: Option<NewSighting>, errors: map<Field, string>)
    ensures request.None?
    ensures errors.Keys == AllFields
    ensures forall f :: f in errors ==> errors[f] == ErrorText(f)
  {
    var dialog := new DuckDialogButton();
    dialog.HandleCountChange(Num(0.0));
    EmptyDraftAllErrors(Num(0.0), Some(""));
    request := dialog.HandleSubmit();
    errors := dialog.errors;
  }
}
