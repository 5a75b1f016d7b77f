/**
  The add-user page as an object: the three pieces of React state (current
  step, form record, error map) are fields, and browser storage is a fourth
  field the persistence effect writes. Each handler is a method whose new
  state is the pure `Form.Apply` of the old one, so the lemmas about `Apply`
  and `Run` cover the page; what a handler does to storage is stated beside it.
 */
module AddUserWizard {
  import opened Optional
  import opened Text
  import opened Decimal
  import opened Form
  import opened Snapshot

  class Wizard {
    var step: int
    var formData: Record
    var errors: ErrorMap
    var store: Store

    /** The React state of the page as a value. */
    function State(): Session
      reads this
    {
      Session(step, formData, errors)
    }

    /** Storage either mirrors the state or holds no draft (after a submit). */
    ghost predicate Valid()
      reads this
    {
      Mirrors(store, step, formData) || Cleared(store)
    }

    /** Mounting the page: step and record are read back from storage, the
        error map starts empty, and the effect then writes both back. */
    constructor (saved: Store)
      requires Loadable(saved)
      ensures step == HydrateStep(saved) && formData == HydrateRecord(saved) && errors == map[]
      ensures store == Save(saved, step, formData)
      ensures Valid()
    {
      step := HydrateStep(saved);
      formData := HydrateRecord(saved);
      errors := map[];
      store := saved;
      new;
      Persist();
    }

    /** The persistence effect, run after a render in which the record or
        the step changed. */
    method Persist()
      modifies this
      ensures store == Save(old(store), step, formData)
      ensures State() == old(State())
      ensures Mirrors(store, step, formData)
    {
      store := store[FormDataKey := EncodeRecord(formData)];
      store := store[FormStepKey := IntToString(step)];
    }

    /** Typing into an input: the field takes the new value and loses its
        error, and the effect saves the record. */
    method HandleChange(f: Field, v: string)
      modifies this
      ensures State() == Apply(old(State()), Edit(f, v))
      ensures formData.Get(f) == v && f !in errors
      ensures forall g :: g != f ==> formData.Get(g) == old(formData.Get(g))
      ensures forall g :: g != f ==> (g in errors <==> g in old(errors))
      ensures forall g :: g in errors ==> errors[g] == old(errors[g])
      ensures step == old(step)
      ensures store == Save(old(store), step, formData)
      ensures Valid()
    {
      formData := formData.With(f, v);
      if f in errors {
        errors := errors - {f};
      }
      Persist();
    }

    /** Checks the fields of `currentStep` and replaces the error map with the
        errors found; the step is valid exactly when none is found. Steps
        other than 1 and 2 have nothing to check. */
    method ValidateStep(currentStep: int) returns (isValid: bool)
      modifies this
      ensures errors == StepErrors(currentStep, formData)
      ensures isValid <==> errors == map[]
      ensures step == old(step) && formData == old(formData) && store == old(store)
    {
      var r := formData;
      var newErrors: ErrorMap := map[];
      isValid := true;
      if currentStep == 1 {
        if Trim(r.name) == "" {
          newErrors := newErrors[Name := NameRequired];
          isValid := false;
        }
        ghost var afterName := newErrors;
        if Trim(r.email) == "" {
          newErrors := newErrors[Email := EmailRequired];
          isValid := false;
        } else if !MatchesEmailPattern(r.email) {
          newErrors := newErrors[Email := EmailInvalid];
          isValid := false;
        }
        BasicInfoErrorsInOrder(r, afterName, newErrors);
      } else if currentStep == 2 {
        if Trim(r.street) == "" {
          newErrors := newErrors[Street := StreetRequired];
          isValid := false;
        }
        ghost var afterStreet := newErrors;
        if Trim(r.city) == "" {
          newErrors := newErrors[City := CityRequired];
          isValid := false;
        }
        ghost var afterCity := newErrors;
        if Trim(r.zip) == "" {
          newErrors := newErrors[Zip := PinRequired];
          isValid := false;
        } else if !MatchesPinPattern(r.zip) {
          newErrors := newErrors[Zip := PinInvalid];
          isValid := false;
        }
        AddressErrorsInOrder(r, afterStreet, afterCity, newErrors);
      }
      errors := newErrors;
    }

    /** Next: validates the current step and moves on by one when it is
        valid; only a step change runs the effect. */
    method HandleNext()
      modifies this
      ensures State() == Apply(old(State()), Next)
      ensures errors == StepErrors(old(step), formData)
      ensures step == (if errors == map[] then old(step) + 1 else old(step))
      ensures store == (if errors == map[] then Save(old(store), step, formData) else old(store))
      ensures old(Valid()) ==> Valid()
    {
      var ok := ValidateStep(step);
      if ok {
        step := step + 1;
        Persist();
      }
    }

    /** Back: moves back by one, without a lower bound, and the effect saves
        the new step. The error map is kept. */
    method HandlePrevious()
      modifies this
      ensures State() == Apply(old(State()), Back)
      ensures step == old(step) - 1 && errors == old(errors)
      ensures store == Save(old(store), step, formData)
      ensures Valid()
    {
      step := step - 1;
      Persist();
    }

    /** Submit: removes both draft entries from storage and leaves the state,
        step included, as it was. */
    method HandleSubmit()
      modifies this
      ensures State() == Apply(old(State()), Submit) && State() == old(State())
      ensures store == Clear(old(store))
      ensures Valid()
    {
      store := store - {FormDataKey, FormStepKey};
    }
  }

  /** A reload while storage mirrors the page brings back the same step and
      the same record, with an empty error map. */
  method Reload(w: Wizard) returns (reloaded: Wizard)
    requires Mirrors(w.store, w.step, w.formData)
    ensures reloaded.step == w.step && reloaded.formData == w.formData && reloaded.errors == map[]
    ensures reloaded.store == w.store
  {
    HydrateMirrored(w.store, w.step, w.formData);
    reloaded := new Wizard(w.store);
  }

  /** The basic-info map built one field at a time is the map `StepErrors`
      describes, and it is empty exactly when both fields pass. */
  lemma BasicInfoErrorsInOrder(r: Record, afterName: ErrorMap, afterEmail: ErrorMap)
    requires afterName == Put(map[], Name, FieldError(Name, r))
    requires afterEmail == Put(afterName, Email, FieldError(Email, r))
    ensures afterEmail == StepErrors(1, r)
    ensures afterEmail == map[] <==> FieldError(Name, r).None? && FieldError(Email, r).None?
  {
    if FieldError(Email, r).Some? {
      assert Email in afterEmail;
    } else if FieldError(Name, r).Some? {
      assert Name in afterEmail;
    }
  }

  /** The address map built one field at a time is the map `StepErrors`
      describes, and it is empty exactly when every field passes. */
  lemma AddressErrorsInOrder(r: Record, afterStreet: ErrorMap, afterCity: ErrorMap, afterZip: ErrorMap)
    requires afterStreet == Put(map[], Street, FieldError(Street, r))
    requires afterCity == Put(afterStreet, City, FieldError(City, r))
    requires afterZip == Put(afterCity, Zip, FieldError(Zip, r))
    ensures afterZip == StepErrors(2, r)
    ensures afterZip == map[] <==>
      FieldError(Street, r).None? && FieldError(City, r).None? && FieldError(Zip, r).None?
  {
    if FieldError(Zip, r).Some? {
      assert Zip in afterZip;
    } else if FieldError(City, r).Some? {
      assert City in afterZip;
    } else if FieldError(Street, r).Some? {
      assert Street in afterZip;
    }
  }
}
