/** The user's own food records as the table handlers keep them: one value
    under the storage key `userFoods`, read as the empty list when the key is
    absent and rewritten after each accepted change. Built-in records are
    never changed; a change aimed at one is refused. */
module UserFoodStore {
  import opened FoodText
  import opened FoodCatalog

  datatype Option<T> = None | Some(value: T)

  /** The three editable columns of the table (`data-field`). */
  datatype Field = NameField | CarbsField | UnitField

  /** The value held in one field of a record. */
  datatype FieldValue = StrValue(s: string) | CarbsValue(c: Carbs)

  /** Why a change was not written. */
  datatype Refusal =
    | BaseRecordImmutable  // the index names a built-in record (初期データは削除/編集できません)
    | NoSuchRecord         // the edit handler indexes past the user list and throws
    | RequiredMissing      // the add handler's 食品名と糖質量は必須です

  datatype Outcome = Saved | Refused(reason: Refusal)

  /** `userFoods.splice(k, 1)`: drop the element at `k`; a position past the
      end drops nothing. */
  function RemoveAt(s: seq<Food>, k: nat): (r: seq<Food>)
    ensures |r| == if k < |s| then |s| - 1 else |s|
    ensures k >= |s| ==> r == s
  {
    if k < |s| then s[..k] + s[k + 1..] else s
  }

  /** Splicing out an existing position removes exactly that one element and
      keeps the others, in order. */
  lemma RemoveAtSpec(s: seq<Food>, k: nat)
    requires k < |s|
    ensures |RemoveAt(s, k)| == |s| - 1
    ensures forall i :: 0 <= i < k ==> RemoveAt(s, k)[i] == s[i]
    ensures forall i :: k <= i < |s| - 1 ==> RemoveAt(s, k)[i] == s[i + 1]
    ensures multiset(RemoveAt(s, k)) + multiset{s[k]} == multiset(s)
  {
    assert s == s[..k] + [s[k]] + s[k + 1..];
  }

  /** Removing what was just appended restores the list. */
  lemma RemoveAppended(s: seq<Food>, f: Food)
    ensures RemoveAt(s + [f], |s|) == s
  {
    assert (s + [f])[..|s|] == s;
  }

  /** The value of one field of a record. */
  function Get(food: Food, field: Field): FieldValue {
    match field
    case NameField => StrValue(food.name)
    case CarbsField => CarbsValue(food.carbs)
    case UnitField => StrValue(food.unit)
  }

  /** What the edit handler stores for input text `input`: `Number(input)` for
      the carbs column, the text itself otherwise. `num` is the runtime's
      string-to-number conversion. */
  function Coerce(field: Field, input: string, num: string -> int): FieldValue {
    if field == CarbsField then CarbsValue(Number(num(input))) else StrValue(input)
  }

  /** `record[field] = value` for the value `Coerce` yields. */
  function SetField(food: Food, field: Field, input: string, num: string -> int): (g: Food)
    ensures Get(g, field) == Coerce(field, input, num)
    ensures forall other :: other != field ==> Get(g, other) == Get(food, other)
  {
    match field
    case NameField => food.(name := input)
    case CarbsField => food.(carbs := Number(num(input)))
    case UnitField => food.(unit := input)
  }

  /** The record the add handler appends: name, carbs text and unit trimmed,
      carbs converted with `num`. */
  function NewFood(nameInput: string, carbsInput: string, unitInput: string, num: string -> int): (f: Food)
    ensures f.name != [] ==> !IsSpace(f.name[0]) && !IsSpace(f.name[|f.name| - 1])
    ensures f.unit != [] ==> !IsSpace(f.unit[0]) && !IsSpace(f.unit[|f.unit| - 1])
    ensures Accepted(nameInput, carbsInput) ==> f.name != [] && !CarbsMissing(f.carbs)
    ensures f.carbs.Number?
  {
    Food(Trim(nameInput), Number(num(Trim(carbsInput))), Trim(unitInput))
  }

  /** The add handler's check: both the trimmed name and the trimmed carbs
      text are non-empty. */
  predicate Accepted(nameInput: string, carbsInput: string) {
    Trim(nameInput) != [] && Trim(carbsInput) != []
  }

  /** The check fails exactly when one of the two inputs is all white space. */
  lemma AcceptedIff(nameInput: string, carbsInput: string)
    ensures !Accepted(nameInput, carbsInput) <==>
              (forall i :: 0 <= i < |nameInput| ==> IsSpace(nameInput[i])) ||
              (forall i :: 0 <= i < |carbsInput| ==> IsSpace(carbsInput[i]))
  {
    TrimEmptyIff(nameInput);
    TrimEmptyIff(carbsInput);
  }

  /** Every user record has a name that is not all white space. */
  predicate NamesPresent(overlay: seq<Food>) {
    forall i :: 0 <= i < |overlay| ==> Trim(overlay[i].name) != []
  }

  /** An accepted add keeps every user name present, but an edit of the name
      column stores its input untrimmed and unchecked, so one edit can leave
      a record without a name. */
  lemma NamesPresentByAddNotEdit(overlay: seq<Food>, nameInput: string, carbsInput: string, unitInput: string,
                                 num: string -> int)
    requires NamesPresent(overlay) && Accepted(nameInput, carbsInput)
    ensures NamesPresent(overlay + [NewFood(nameInput, carbsInput, unitInput, num)])
    ensures var grown := overlay + [NewFood(nameInput, carbsInput, unitInput, num)];
      !NamesPresent(grown[|overlay| := SetField(grown[|overlay|], NameField, " ", num)])
  {
    var f := NewFood(nameInput, carbsInput, unitInput, num);
    TrimUnpadded(f.name);
    BlankTrimsAway();
    var grown := overlay + [f];
    var edited := grown[|overlay| := SetField(f, NameField, " ", num)];
    assert Trim(edited[|overlay|].name) == [];
  }

  lemma BlankTrimsAway()
    ensures Trim(" ") == []
  {
    TrimEmptyIff(" ");
  }

  /** An appended record is the last one of the merged view. */
  lemma AppendedIsLast(base: seq<Food>, overlay: seq<Food>, f: Food)
    ensures |Merged(base, overlay + [f])| == |Merged(base, overlay)| + 1
    ensures Merged(base, overlay + [f])[|Merged(base, overlay + [f])| - 1] == f
    ensures Merged(base, overlay + [f])[..|Merged(base, overlay)|] == Merged(base, overlay)
  {
    assert Merged(base, overlay + [f]) == Merged(base, overlay) + [f];
  }

  class UserFoods {
    /** The stored value of `userFoods`; `None` while the key is absent. */
    var stored: Option<seq<Food>>

    /** `JSON.parse(localStorage.getItem('userFoods') || '[]')`. */
    function Overlay(): seq<Food>
      reads this
    {
      match stored
      case None => []
      case Some(s) => s
    }

    /** `fetchFoodData()`: the built-in list followed by the user list. */
    function Foods(base: seq<Food>): (foods: seq<Food>)
      reads this
      ensures |foods| == |base| + |Overlay()|
      ensures foods[..|base|] == base && foods[|base|..] == Overlay()
    {
      Merged(base, Overlay())
    }

    /** A store read from `saved`, the value found under the key. */
    constructor (saved: Option<seq<Food>>)
      ensures stored == saved
    {
      stored := saved;
    }

    /** The delete button's handler for merged index `idx`. A built-in index
        is refused without writing; otherwise the user list, with the record
        at `idx - |base|` spliced out, is written back. */
    method Delete(base: seq<Food>, idx: int) returns (r: Outcome)
      modifies this
      ensures r == Saved <==> idx >= |base|
      ensures r.Refused? ==> r.reason == BaseRecordImmutable && stored == old(stored)
      ensures r == Saved ==> stored == Some(RemoveAt(old(Overlay()), idx - |base|))
      ensures r == Saved && idx < |old(Foods(base))| ==>
                |Overlay()| == |old(Overlay())| - 1 &&
                (forall i :: 0 <= i < idx - |base| ==> Overlay()[i] == old(Overlay())[i]) &&
                (forall i :: idx - |base| <= i < |Overlay()| ==> Overlay()[i] == old(Overlay())[i + 1]) &&
                multiset(Overlay()) + multiset{old(Foods(base))[idx]} == multiset(old(Overlay()))
      ensures r == Saved && idx >= |old(Foods(base))| ==> Overlay() == old(Overlay())
    {
      var foods := Foods(base);
      var userFoods := Overlay();
      if IsUser(idx, |foods|, |userFoods|) {
        var k := idx - (|foods| - |userFoods|);
        if k < |userFoods| {
          RemoveAtSpec(userFoods, k);
        }
        userFoods := RemoveAt(userFoods, k);
        stored := Some(userFoods);
        r := Saved;
      } else {
        r := Refused(BaseRecordImmutable);
      }
    }

    /** The table inputs' change handler: column `field` of merged row `idx`
        receives `input`. A built-in index is refused; an index past the end
        of the user list throws before anything is written; otherwise only
        that field of that user record changes and the list is written back. */
    method EditField(base: seq<Food>, idx: int, field: Field, input: string, num: string -> int) returns (r: Outcome)
      modifies this
      ensures r == Refused(BaseRecordImmutable) <==> idx < |base|
      ensures r == Refused(NoSuchRecord) <==> idx >= |base| + |old(Overlay())|
      ensures r == Saved <==> |base| <= idx < |old(Foods(base))|
      ensures r.Refused? ==> stored == old(stored)
      ensures r == Saved ==> stored.Some? && |Overlay()| == |old(Overlay())|
      ensures r == Saved ==> Overlay()[idx - |base|] == SetField(old(Overlay())[idx - |base|], field, input, num)
      ensures r == Saved ==> forall i :: 0 <= i < |Overlay()| && i != idx - |base| ==> Overlay()[i] == old(Overlay())[i]
    {
      var foods := Foods(base);
      var userFoods := Overlay();
      if IsUser(idx, |foods|, |userFoods|) {
        var k := idx - (|foods| - |userFoods|);
        if k < |userFoods| {
          userFoods := userFoods[k := SetField(userFoods[k], field, input, num)];
          stored := Some(userFoods);
          r := Saved;
        } else {
          r := Refused(NoSuchRecord);
        }
      } else {
        r := Refused(BaseRecordImmutable);
      }
    }

    /** The add button's handler. Without a name or carbs (after trimming)
        nothing is written; otherwise the new record is appended to the user
        list and the list is written back. */
    method Add(nameInput: string, carbsInput: string, unitInput: string, num: string -> int) returns (r: Outcome)
      modifies this
      ensures r == Saved <==> Accepted(nameInput, carbsInput)
      ensures r.Refused? ==> r.reason == RequiredMissing && stored == old(stored)
      ensures r == Saved ==> stored == Some(old(Overlay()) + [NewFood(nameInput, carbsInput, unitInput, num)])
    {
      var name := Trim(nameInput);
      var carbs := Trim(carbsInput);
      var unit := Trim(unitInput);
      if name == [] || carbs == [] {
        r := Refused(RequiredMissing);
        return;
      }
      var userFoods := Overlay();
      userFoods := userFoods + [Food(name, Number(num(carbs)), unit)];
      stored := Some(userFoods);
      r := Saved;
    }
  }

  /** Adding a record and then deleting the last merged position leaves the
      user list, and so the merged view, as it was; an accepted record shows
      up as the last merged row in between. */
  method AddThenDelete(store: UserFoods, base: seq<Food>, nameInput: string, carbsInput: string, unitInput: string, num: string -> int)
      returns (added: Outcome, removed: Outcome)
    modifies store
    ensures added == Saved <==> Accepted(nameInput, carbsInput)
    ensures removed == Saved
    ensures store.Overlay() == old(store.Overlay())
    ensures |store.Foods(base)| == |old(store.Foods(base))|
  {
    var before := store.Overlay();
    var n := |store.Foods(base)|;
    added := store.Add(nameInput, carbsInput, unitInput, num);
    if added == Saved {
      var f := NewFood(nameInput, carbsInput, unitInput, num);
      AppendedIsLast(base, before, f);
      RemoveAppended(before, f);
      assert store.Foods(base)[n] == f;
    }
    removed := store.Delete(base, n);
  }
}
