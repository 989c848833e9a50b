/**
 * The checks the creation dialog runs on submit. Each of the five fields is
 * checked on its own; a failing field gets its fixed message in the error
 * map, a passing field gets no entry, and the sighting is sent only when
 * the map is empty.
 */
module Validation {
  import opened Optional

  datatype Field = Date | Time | Species | Description | Count

  const AllFields: set<Field> := {Date, Time, Species, Description, Count}

  lemma AllFieldsComplete()
    ensures forall f: Field :: f in AllFields
  {
    forall f: Field ensures f in AllFields {
      match f
      case Date => case Time => case Species => case Description => case Count =>
    }
  }

  /** The fixed message shown next to a failing field: never empty, so a failing field always shows text. */
  function ErrorText(f: Field): (r: string)
    ensures r != ""
  {
    match f
    case Date => "A valid date must be given"
    case Time => "A valid time must be given"
    case Species => "Invalid species"
    case Description => "Description cannot be empty"
    case Count => "Count must be a valid number higher than 0"
  }

  /**
   * The number JavaScript makes of the count field's value when it compares
   * it with `1` or asks `isNaN`: a finite number or NaN.
   */
  datatype CountValue = Num(value: real) | NotANumber

  /** The dialog's pending input. `selSpecies` is `None` when it is `undefined`. */
  datatype Draft = Draft(date: string, time: string, selSpecies: Option<string>, description: string, count: CountValue)

  /** `species.includes(selSpecies)`: the selection is one of the loaded entries. */
  function SpeciesKnown(selSpecies: Option<string>, species: seq<string>): (r: bool)
    ensures r <==> exists i :: 0 <= i < |species| && selSpecies == Some(species[i])
  {
    selSpecies.Some? && selSpecies.value in species
  }

  /** `count < 1 || isNaN(count)`: a comparison with NaN is false, `isNaN` is true. */
  function CountFails(count: CountValue): (r: bool)
    ensures !r <==> count.Num? && count.value >= 1.0
  {
    match count
    case NotANumber => true
    case Num(v) => v < 1.0
  }

  /** The check one field fails; everything else passes. */
  predicate Fails(d: Draft, species: seq<string>, f: Field) {
    match f
    case Date => d.date == ""
    case Time => d.time == ""
    case Species => !SpeciesKnown(d.selSpecies, species)
    case Description => d.description == ""
    case Count => CountFails(d.count)
  }

  /** The error map as a whole: each failing field with its message, nothing else. */
  function Errors(d: Draft, species: seq<string>): (r: map<Field, string>)
    ensures forall f :: f in r <==> Fails(d, species, f)
    ensures forall f :: f in r ==> r[f] == ErrorText(f)
  {
    AllFieldsComplete();
    map f | f in AllFields && Fails(d, species, f) :: ErrorText(f)
  }

  /** Every entry of the map holds its field's own message. */
  ghost predicate OwnMessages(errors: map<Field, string>) {
    forall f :: f in errors ==> errors[f] == ErrorText(f)
  }

  /** One step of `handleSubmit`: set the field's message when it fails, delete its entry when it passes. */
  method Mark(errors: map<Field, string>, f: Field, fails: bool) returns (r: map<Field, string>)
    requires OwnMessages(errors)
    ensures OwnMessages(r)
    ensures f in r <==> fails
    ensures forall g :: g != f ==> (g in r <==> g in errors)
  {
    if fails { r := errors[f := ErrorText(f)]; } else { r := errors - {f}; }
  }

  /**
   * `handleSubmit` building the map one field after another, setting the
   * entry of a failing field and deleting that of a passing one.
   */
  method ValidateDraft(d: Draft, species: seq<string>) returns (errors: map<Field, string>)
    ensures Date in errors <==> d.date == ""
    ensures Time in errors <==> d.time == ""
    ensures Species in errors <==> !SpeciesKnown(d.selSpecies, species)
    ensures Description in errors <==> d.description == ""
    ensures Count in errors <==> CountFails(d.count)
    ensures forall f :: f in errors ==> errors[f] == ErrorText(f)
    ensures errors == Errors(d, species)
  {
    errors := map[];
    errors := Mark(errors, Date, d.date == "");
    errors := Mark(errors, Time, d.time == "");
    errors := Mark(errors, Species, !SpeciesKnown(d.selSpecies, species));
    errors := Mark(errors, Description, d.description == "");
    errors := Mark(errors, Count, CountFails(d.count));
    FieldwiseErrors(errors, d, species);
  }

  lemma FieldwiseErrors(errors: map<Field, string>, d: Draft, species: seq<string>)
    requires OwnMessages(errors)
    requires Date in errors <==> d.date == ""
    requires Time in errors <==> d.time == ""
    requires Species in errors <==> !SpeciesKnown(d.selSpecies, species)
    requires Description in errors <==> d.description == ""
    requires Count in errors <==> CountFails(d.count)
    ensures errors == Errors(d, species)
  {
    forall f ensures f in errors <==> Fails(d, species, f) {
      match f
      case Date => case Time => case Species => case Description => case Count =>
    }
    ChecksDetermineErrors(errors, d, species);
  }

  /** A map with the five keys exactly where the checks fail, and their own messages, is `Errors`. */
  lemma ChecksDetermineErrors(errors: map<Field, string>, d: Draft, species: seq<string>)
    requires OwnMessages(errors)
    requires forall f :: f in errors <==> Fails(d, species, f)
    ensures errors == Errors(d, species)
  {
  }

  /** The submission goes ahead exactly when all five checks pass. */
  lemma SubmitAllowedIff(d: Draft, species: seq<string>)
    ensures Errors(d, species) == map[] <==>
      && d.date != "" && d.time != ""
      && SpeciesKnown(d.selSpecies, species)
      && d.description != ""
      && !CountFails(d.count)
  {
    var e := Errors(d, species);
    assert Date !in e && Time !in e && Species !in e && Description !in e && Count !in e <==> e == map[] by {
      if e != map[] {
        var f :| f in e;
        match f
        case Date => case Time => case Species => case Description => case Count =>
      }
    }
  }

  /** A species missing from the loaded list is reported whatever the other fields hold. */
  lemma UnknownSpeciesReported(d: Draft, species: seq<string>)
    requires d.selSpecies.None? || d.selSpecies.value !in species
    ensures Species in Errors(d, species) && Errors(d, species) != map[]
  {
  }

  /** An all-empty draft against an empty species list gets all five messages. */
  lemma EmptyDraftAllErrors(count: CountValue, selSpecies: Option<string>)
    requires count == NotANumber || count == Num(0.0)
    ensures Errors(Draft("", "", selSpecies, "", count), []) ==
      map[Date := ErrorText(Date), Time := ErrorText(Time), Species := ErrorText(Species),
          Description := ErrorText(Description), Count := ErrorText(Count)]
  {
    var d := Draft("", "", selSpecies, "", count);
    var e := Errors(d, []);
    var want := map[Date := ErrorText(Date), Time := ErrorText(Time), Species := ErrorText(Species),
                    Description := ErrorText(Description), Count := ErrorText(Count)];
    assert forall f :: f in e <==> f in want by {
      AllFieldsComplete();
    }
  }

  /** Counts 0, -3 and "abc" are refused; 1 and 500 are accepted; so is 1.5, as no integer check exists. */
  lemma CountExamples()
    ensures CountFails(Num(0.0)) && CountFails(Num(-3.0)) && CountFails(NotANumber)
    ensures !CountFails(Num(1.0)) && !CountFails(Num(500.0)) && !CountFails(Num(1.5))
  {
  }

  /** Only the empty text fails: a description of blanks passes. */
  lemma BlankDescriptionPasses(d: Draft, species: seq<string>)
    requires d.description == " "
    ensures Description !in Errors(d, species)
  {
  }
}
