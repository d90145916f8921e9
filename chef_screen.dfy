/** The chef's add form: four fields, checked in order before a dish reaches the store. */
module ChefScreen {
  import opened Wrappers
  import opened Text
  import opened MenuContext

  /** The course picker's value: `''` until the chef chooses one. */
  datatype CourseChoice = Unselected | Selected(course: Course)

  /** Why the form refused to add a dish; each is shown as a "Validation" alert. */
  datatype ValidationError = EmptyName | EmptyDescription | NoCourse | InvalidPrice

  /** The alert text shown for each refusal; never empty. */
  function Message(e: ValidationError): (text: string)
    ensures text != []
  {
    match e
    case EmptyName => "Dish name can't be empty"
    case EmptyDescription => "Description can't be empty"
    case NoCourse => "Please select a course"
    case InvalidPrice => "Enter a valid non-negative price"
  }

  /** Position of each check in the order the form runs them. */
  function Rank(e: ValidationError): nat {
    match e
    case EmptyName => 0
    case EmptyDescription => 1
    case NoCourse => 2
    case InvalidPrice => 3
  }

  /**
   * Whether the check behind `e`, taken on its own, rejects the form.
   * `parsed` is `parseFloat(price)`, with `None` for `NaN`.
   */
  predicate Fails(e: ValidationError, name: string, description: string, selected: CourseChoice, parsed: Option<real>) {
    match e
    case EmptyName => IsBlank(name)
    case EmptyDescription => IsBlank(description)
    case NoCourse => selected.Unselected?
    case InvalidPrice => parsed.None? || parsed.value < 0.0
  }

  /** The checks of `validateAndAdd`, in order, and the item they let through, which is always a valid dish. */
  function Validate(name: string, description: string, selected: CourseChoice, parsed: Option<real>): (r: Result<NewItem, ValidationError>)
    ensures r.Success? ==> IsValidItem(r.value)
  {
    if Trim(name) == [] then Failure(EmptyName)
    else if Trim(description) == [] then Failure(EmptyDescription)
    else if selected.Unselected? then Failure(NoCourse)
    else if parsed.None? || parsed.value < 0.0 then Failure(InvalidPrice)
    else Success(NewItem(Trim(name), Trim(description), selected.course, parsed.value))
  }

  /**
   * The form is accepted exactly when no check fails, and when it is refused the
   * reported error is the earliest failing check in the order name, description,
   * course, price.
   */
  lemma ValidateReportsFirstFailure(name: string, description: string, selected: CourseChoice, parsed: Option<real>)
    ensures Validate(name, description, selected, parsed).Success? <==>
      forall e: ValidationError :: !Fails(e, name, description, selected, parsed)
    ensures forall e: ValidationError :: Validate(name, description, selected, parsed) == Failure(e) <==>
      Fails(e, name, description, selected, parsed) &&
      forall e': ValidationError :: Rank(e') < Rank(e) ==> !Fails(e', name, description, selected, parsed)
  {
    var v := Validate(name, description, selected, parsed);
    var f0 := Fails(EmptyName, name, description, selected, parsed);
    var f1 := Fails(EmptyDescription, name, description, selected, parsed);
    var f2 := Fails(NoCourse, name, description, selected, parsed);
    var f3 := Fails(InvalidPrice, name, description, selected, parsed);
    assert v.Success? <==> !f0 && !f1 && !f2 && !f3;
    forall e: ValidationError ensures !Fails(e, name, description, selected, parsed) <== v.Success? {
      match e
      case EmptyName =>
      case EmptyDescription =>
      case NoCourse =>
      case InvalidPrice =>
    }
    forall e: ValidationError
      ensures v == Failure(e) <==>
        Fails(e, name, description, selected, parsed) &&
        forall e': ValidationError :: Rank(e') < Rank(e) ==> !Fails(e', name, description, selected, parsed)
    {
      forall e': ValidationError | Rank(e') < Rank(e) && !v.Success? && v.error == e
        ensures !Fails(e', name, description, selected, parsed)
      {
        match e'
        case EmptyName =>
        case EmptyDescription =>
        case NoCourse =>
        case InvalidPrice =>
      }
      match e
      case EmptyName =>
      case EmptyDescription =>
        assert Rank(EmptyName) < Rank(e);
      case NoCourse =>
        assert Rank(EmptyName) < Rank(e) && Rank(EmptyDescription) < Rank(e);
      case InvalidPrice =>
        assert Rank(EmptyName) < Rank(e) && Rank(EmptyDescription) < Rank(e) && Rank(NoCourse) < Rank(e);
    }
  }

  /** A dish with a non-empty name and description and a price of zero or more. */
  predicate IsValidItem(item: NewItem) {
    item.name != [] && item.description != [] && item.price >= 0.0
  }

  /** What the form lets through is a valid dish whose name and description carry no surrounding whitespace. */
  lemma ValidateAcceptsOnlyValid(name: string, description: string, selected: CourseChoice, parsed: Option<real>)
    requires Validate(name, description, selected, parsed).Success?
    ensures var item := Validate(name, description, selected, parsed).value;
      IsValidItem(item) && IsTrimmed(item.name) && IsTrimmed(item.description) &&
      item.name == Trim(name) && item.description == Trim(description) &&
      selected == Selected(item.course) && parsed == Some(item.price)
  {
    assert Trim(name) != [] && Trim(description) != [];
    assert selected.Selected? && parsed.Some?;
    assert Validate(name, description, selected, parsed).value ==
      NewItem(Trim(name), Trim(description), selected.course, parsed.value);
  }

  /** Every valid dish with trimmed text can be entered through the form and comes out unchanged. */
  lemma ValidateAcceptsEveryValid(item: NewItem)
    requires IsValidItem(item) && IsTrimmed(item.name) && IsTrimmed(item.description)
    ensures Validate(item.name, item.description, Selected(item.course), Some(item.price)) == Success(item)
  {
    TrimOfTrimmed(item.name);
    TrimOfTrimmed(item.description);
  }

  /** A price of zero is accepted; a negative price is refused. */
  lemma PriceBoundary(name: string, description: string, c: Course, p: real)
    requires !IsBlank(name) && !IsBlank(description)
    ensures Validate(name, description, Selected(c), Some(0.0)).Success?
    ensures p < 0.0 ==> Validate(name, description, Selected(c), Some(p)) == Failure(InvalidPrice)
  {
  }

  /** The add form's fields. */
  class ChefForm {
    var name: string
    var description: string
    var selectedCourse: CourseChoice
    var price: string

    /** Every field starts empty. */
    constructor ()
      ensures name == [] && description == [] && selectedCourse == Unselected && price == []
    {
      name, description, selectedCourse, price := [], [], Unselected, [];
    }

    /**
     * `validateAndAdd`: on the first failing check, reports it and changes nothing;
     * otherwise adds the trimmed dish under `id` to `store` once and clears every field.
     * `parseFloat` stands for the parser applied to the price text.
     */
    method ValidateAndAdd(store: MenuStore, id: string, parseFloat: string -> Option<real>) returns (outcome: Outcome<ValidationError>)
      modifies this, store
      ensures Validate(old(name), old(description), old(selectedCourse), parseFloat(old(price))).Failure? ==>
        outcome == Fail(Validate(old(name), old(description), old(selectedCourse), parseFloat(old(price))).error) &&
        unchanged(this, store)
      ensures Validate(old(name), old(description), old(selectedCourse), parseFloat(old(price))).Success? ==>
        outcome == Pass &&
        store.menuItems == Prepended(old(store.menuItems), Validate(old(name), old(description), old(selectedCourse), parseFloat(old(price))).value, id) &&
        name == [] && description == [] && selectedCourse == Unselected && price == []
    {
      var verdict := Validate(name, description, selectedCourse, parseFloat(price));
      match verdict
      case Failure(e) =>
        outcome := Fail(e);
      case Success(item) =>
        store.AddItem(item, id);
        name := [];
        description := [];
        selectedCourse := Unselected;
        price := [];
        outcome := Pass;
    }
  }

  /** Every item on the menu is a valid dish. */
  predicate AllValid(menuItems: seq<MenuItem>) {
    forall i :: 0 <= i < |menuItems| ==> IsValidItem(Fields(menuItems[i]))
  }

  /** Adding through the form and removing by id both keep every item on the menu valid. */
  lemma FormKeepsMenuValid(menuItems: seq<MenuItem>, name: string, description: string, selected: CourseChoice, parsed: Option<real>, id: string)
    requires AllValid(menuItems)
    ensures Validate(name, description, selected, parsed).Success? ==>
      AllValid(Prepended(menuItems, Validate(name, description, selected, parsed).value, id))
    ensures AllValid(WithoutId(menuItems, id))
  {
    var r := WithoutId(menuItems, id);
    forall i | 0 <= i < |r| ensures IsValidItem(Fields(r[i])) {
      assert r[i] in r;
      var j :| 0 <= j < |menuItems| && menuItems[j] == r[i];
    }
    var v := Validate(name, description, selected, parsed);
    if v.Success? {
      var p := Prepended(menuItems, v.value, id);
      forall i | 0 <= i < |p| ensures IsValidItem(Fields(p[i])) {
        if i > 0 {
          assert p[i] == menuItems[i - 1];
        }
      }
    }
  }
}
