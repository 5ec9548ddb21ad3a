/** The identifier migration: every id that is not a canonical text gets a new one, and the documents
    and the references between them are rewritten to match. */
module Migration {
  import opened Text

  /** An id as a document holds it: a text or a binary object id; the store tells the two apart. */
  datatype Value = Id(text: string) | ObjectId(hex: string) | Unsupported

  const DIGITS := "0123456789abcdef"
  const ID_LENGTH := 24

  predicate IsHex(text: string) { forall k :: 0 <= k < |text| ==> text[k] in DIGITS }

  predicate Canonical(text: string) { |text| == ID_LENGTH && IsHex(text) }

  predicate IsCanonical(v: Value) { v.Id? && Canonical(v.text) }

  /** Object ids print as canonical texts. */
  predicate WellFormed(v: Value) { v.ObjectId? ==> Canonical(v.hex) }

  /** The key of a value in a plan; blank texts and other types are errors. */
  function ValueKey(v: Value): Option<string> {
    match v
    case Id(text) => if TrimSpace(text) == "" then None else Some("string:" + text)
    case ObjectId(hex) => Some("objectid:" + hex)
    case Unsupported => None
  }

  /** Keys tell values apart, so a plan may as well be keyed by the values themselves. */
  lemma KeysTellApart(v: Value, w: Value)
    requires ValueKey(v).Some? && ValueKey(v) == ValueKey(w)
    ensures v == w
  {
    hide TrimSpace;
    var a, b := ValueKey(v).value, ValueKey(w).value;
    assert a[0] == 's' <==> v.Id?;
    assert b[0] == 's' <==> w.Id?;
    if v.Id? {
      assert a[7..] == v.text && b[7..] == w.text;
    } else {
      assert a[9..] == v.hex && b[9..] == w.hex;
    }
  }

  // ---------------------------------------------------------------- plans

  type Plan = map<Value, string>

  /** The plan covers exactly the ids that are not canonical, gives no two of them the same new id, and
      no new id was in use. */
  ghost predicate IsPlan(values: set<Value>, plan: Plan) {
    && (forall v :: v in plan <==> v in values && !IsCanonical(v))
    && (forall v, w | v in plan && w in plan :: plan[v] == plan[w] ==> v == w)
    && (forall v <- plan :: Canonical(plan[v]) && Id(plan[v]) !in values)
  }

  /** All identifiers renamed at once. */
  function Renamed(plan: Plan, v: Value): Value {
    if v in plan then Id(plan[v]) else v
  }

  lemma RenamingIsInjective(values: set<Value>, plan: Plan, v: Value, w: Value)
    requires IsPlan(values, plan) && v in values && w in values
    ensures Renamed(plan, v) == Renamed(plan, w) <==> v == w
  {
  }

  /** After renaming every id is canonical, so planning again plans nothing. */
  lemma SecondPlanIsEmpty(values: set<Value>, plan: Plan, again: Plan)
    requires IsPlan(values, plan)
    requires IsPlan((set v | v in values :: Renamed(plan, v)), again)
    ensures again == map[]
  {
    assert forall v <- values :: IsCanonical(Renamed(plan, v));
  }

  predicate Taken(plan: Plan, text: string) {
    exists v <- plan :: plan[v] == text
  }

  /** An object id keeps its hexadecimal text unless that is an id already, or was drawn for another. */
  ghost predicate KeepsHex(values: set<Value>, plan: Plan) {
    forall v <- plan :: v.ObjectId? && Id(v.hex) !in values && plan[v] != v.hex ==> Taken(plan, v.hex)
  }

  /** The plan as far as the values in `done` go. */
  ghost predicate PartPlan(values: set<Value>, done: set<Value>, plan: Plan) {
    && (forall v :: v in plan <==> v in done && !IsCanonical(v))
    && (forall v, w | v in plan && w in plan :: plan[v] == plan[w] ==> v == w)
    && (forall v <- plan :: Canonical(plan[v]) && Id(plan[v]) !in values)
    && KeepsHex(values, plan)
  }

  /** A text is in use if it is a canonical id or a new one, and it is known for whom. */
  ghost predicate UsedBy(values: set<Value>, plan: Plan, used: map<string, Value>) {
    && (forall text :: text in used <==> (Id(text) in values && Canonical(text)) || Taken(plan, text))
    && (forall text <- used :: used[text] == Id(text) || (used[text] in plan && plan[used[text]] == text))
  }

  lemma TakenAfter(plan: Plan, value: Value, candidate: string, text: string)
    requires value !in plan
    ensures Taken(plan[value := candidate], text) <==> text == candidate || Taken(plan, text)
  {
    var more := plan[value := candidate];
    assert more[value] == candidate;
    if Taken(plan, text) {
      var v :| v in plan && plan[v] == text;
      assert more[v] == text;
    }
  }

  lemma AddToPlan(values: set<Value>, done: set<Value>, plan: Plan, used: map<string, Value>, value: Value,
                  candidate: string)
    requires PartPlan(values, done, plan) && UsedBy(values, plan, used)
    requires value !in done && !IsCanonical(value) && Canonical(candidate) && candidate !in used
    requires value.ObjectId? && candidate != value.hex ==> value.hex in used
    ensures PartPlan(values, done + {value}, plan[value := candidate])
  {
    hide Canonical, KeepsHex;
    AllTaken(plan);
    HexIsKept(values, plan, value, candidate, used);
  }

  lemma AllTaken(plan: Plan)
    ensures forall v <- plan :: Taken(plan, plan[v])
  {
  }

  lemma HexIsKept(values: set<Value>, plan: Plan, value: Value, candidate: string, used: map<string, Value>)
    requires KeepsHex(values, plan) && UsedBy(values, plan, used) && value !in plan
    requires value.ObjectId? && candidate != value.hex ==> value.hex in used
    ensures KeepsHex(values, plan[value := candidate])
  {
    var more := plan[value := candidate];
    forall v <- more | v.ObjectId? && Id(v.hex) !in values && more[v] != v.hex ensures Taken(more, v.hex) {
      TakenAfter(plan, value, candidate, v.hex);
    }
  }

  lemma AddToUsed(values: set<Value>, plan: Plan, used: map<string, Value>, value: Value, candidate: string)
    requires UsedBy(values, plan, used) && value !in plan && candidate !in used
    ensures UsedBy(values, plan[value := candidate], used[candidate := value])
  {
    forall text ensures Taken(plan[value := candidate], text) <==> text == candidate || Taken(plan, text) {
      TakenAfter(plan, value, candidate, text);
    }
  }

  lemma NoMappings(values: set<Value>, used: map<string, Value>)
    requires forall text :: text in used <==> Id(text) in values && Canonical(text)
    requires forall text <- used :: used[text] == Id(text)
    ensures PartPlan(values, {}, map[]) && UsedBy(values, map[], used)
  {
  }

  /** The distinct values, and for each canonical text its owner. */
  method Collect(values: seq<Value>) returns (unique: set<Value>, used: map<string, Value>, failed: bool)
    ensures failed <==> exists v <- values :: ValueKey(v) == None
    ensures !failed ==> unique == set v | v in values
    ensures !failed ==> forall text :: text in used <==> Id(text) in unique && Canonical(text)
    ensures !failed ==> forall text <- used :: used[text] == Id(text)
  {
    hide ValueKey;
    unique, used, failed := {}, map[], false;
    for k := 0 to |values|
      invariant unique == (set v | v in values[..k])
      invariant forall v <- unique :: ValueKey(v).Some?
      invariant forall text :: text in used <==> Id(text) in unique && Canonical(text)
      invariant forall text <- used :: used[text] == Id(text)
    {
      var value := values[k];
      if ValueKey(value) == None {
        return unique, used, true;
      }
      assert values[..k + 1] == values[..k] + [value];
      unique := unique + {value};
      if IsCanonical(value) {
        used := used[value.text := value];
      }
    }
    assert values[..|values|] == values;
  }

  /** Plan new ids for all values that are not canonical, in whatever order. There must be ids enough for
      all of them: drawing random ones until one is unused would not end otherwise. */
  method NewMappings(values: seq<Value>) returns (plan: Option<Plan>)
    requires (forall v <- values :: WellFormed(v)) && |set v | v in values| <= Power(16, ID_LENGTH)
    ensures plan == None <==> exists v <- values :: ValueKey(v) == None
    ensures plan.Some? ==> IsPlan((set v | v in values), plan.value) && KeepsHex((set v | v in values), plan.value)
  {
    hide ValueKey, PartPlan, UsedBy, KeepsHex, HexTexts, Power;
    var unique, used, failed := Collect(values);
    if failed {
      return None;
    }
    var left := unique;
    var result: Plan := map[];
    NoMappings(unique, used);
    assert unique - left == {};
    while left != {}
      invariant left <= unique && PartPlan(unique, unique - left, result) && UsedBy(unique, result, used)
      decreases left
    {
      var value :| value in left;
      if IsCanonical(value) {
        SkipCanonical(unique, unique - left, result, value);
      } else {
        var candidate := if value.ObjectId? then value.hex else "";
        if candidate == "" || (candidate in used && used[candidate] != value) {
          SomeAreUnused(unique, unique - left, result, used, value);
          candidate :| candidate in HexTexts(ID_LENGTH) && candidate !in used;
          CanonicalText(candidate);
        }
        assert WellFormed(value);
        CandidateIsNew(unique, unique - left, result, used, value, candidate);
        AddToPlan(unique, unique - left, result, used, value, candidate);
        NotYetPlanned(unique, unique - left, result, value);
        AddToUsed(unique, result, used, value, candidate);
        used := used[candidate := value];
        result := result[value := candidate];
      }
      assert unique - (left - {value}) == unique - left + {value};
      left := left - {value};
    }
    assert unique - left == unique;
    WholePlan(unique, result);
    plan := Some(result);
  }

  // ---------------------------------------------------------------- how many ids there are

  function Power(base: nat, n: nat): nat { if n == 0 then 1 else base * Power(base, n - 1) }

  /** The texts of `n` hexadecimal digits. */
  function HexTexts(n: nat): set<string> {
    if n == 0 then {""} else Prefixed(DIGITS, HexTexts(n - 1))
  }

  function Prefixed(digits: string, texts: set<string>): set<string> {
    set d, t | d in digits && t in texts :: [d] + t
  }

  lemma {:induction false} HexTextsAre(n: nat, text: string)
    ensures text in HexTexts(n) <==> |text| == n && IsHex(text)
  {
    if n > 0 && text != "" {
      HexTextsAre(n - 1, text[1..]);
      assert text == [text[0]] + text[1..];
      if text in HexTexts(n) {
        var d, t :| d in DIGITS && t in HexTexts(n - 1) && [d] + t == text;
        assert t == text[1..] && d == text[0];
      }
    }
  }

  lemma {:induction false} OneDigit(d: char, texts: set<string>)
    ensures |set t | t in texts :: [d] + t| == |texts|
  {
    if texts != {} {
      var t :| t in texts;
      OneDigit(d, texts - {t});
      assert (set u | u in texts :: [d] + u) == (set u | u in texts - {t} :: [d] + u) + {[d] + t};
      assert forall u <- texts - {t} :: ([d] + u)[1..] == u && ([d] + t)[1..] == t;
    }
  }

  lemma {:induction false} CountPrefixed(digits: string, texts: set<string>)
    requires Distinct(digits)
    ensures |Prefixed(digits, texts)| == |digits| * |texts|
  {
    if digits == "" {
      assert Prefixed(digits, texts) == {};
    } else {
      hide Prefixed;
      CountPrefixed(digits[1..], texts);
      OneMoreDigit(digits, texts);
      assert |digits| * |texts| == |texts| + (|digits| - 1) * |texts|;
    }
  }

  lemma OneMoreDigit(digits: string, texts: set<string>)
    requires Distinct(digits) && digits != ""
    ensures |Prefixed(digits, texts)| == |texts| + |Prefixed(digits[1..], texts)|
  {
    var d, rest := digits[0], digits[1..];
    var first, others := set t | t in texts :: [d] + t, Prefixed(rest, texts);
    OneDigit(d, texts);
    NoTwice(digits);
    assert digits == [d] + rest;
    assert Prefixed(digits, texts) == first + others;
    assert first !! others by {
      assert forall s <- first :: s[0] == d;
      assert forall s <- others :: s[0] in rest;
    }
  }

  lemma NoTwice(digits: string)
    requires Distinct(digits) && digits != ""
    ensures digits[0] !in digits[1..]
  {
    assert forall k :: 0 <= k < |digits| - 1 ==> digits[k + 1] == digits[1..][k];
  }

  /** There are 16 to the power of 24 canonical ids. */
  lemma {:induction false} CountHexTexts(n: nat)
    ensures |HexTexts(n)| == Power(16, n)
  {
    hide Prefixed;
    if n > 0 {
      CountHexTexts(n - 1);
      SixteenDigits();
      CountPrefixed(DIGITS, HexTexts(n - 1));
    }
  }

  lemma SixteenDigits()
    ensures |DIGITS| == 16 && Distinct(DIGITS)
  {
  }

  /** Each text in use stands for a value of its own: a canonical id for itself, a new one for its owner. */
  lemma {:induction false} FewTexts(values: set<Value>, plan: Plan, texts: set<string>)
    requires forall v <- plan :: !IsCanonical(v)
    requires forall text <- texts ::
               (Id(text) in values && Canonical(text)) || exists v <- plan :: v in values && plan[v] == text
    ensures |texts| <= |values|
  {
    hide Canonical;
    if texts != {} {
      var text :| text in texts;
      var owner: Value;
      if Id(text) in values && Canonical(text) {
        owner := Id(text);
      } else {
        owner :| owner in plan && owner in values && plan[owner] == text;
      }
      FewTexts(values - {owner}, plan, texts - {text});
    }
  }

  lemma SomeAreUnused(values: set<Value>, done: set<Value>, plan: Plan, used: map<string, Value>, value: Value)
    requires PartPlan(values, done, plan) && UsedBy(values, plan, used) && done <= values
    requires value in values && value !in done && !IsCanonical(value) && |values| <= Power(16, ID_LENGTH)
    ensures exists text :: text in HexTexts(ID_LENGTH) && text !in used
  {
    hide HexTexts, Power, Canonical;
    FewTexts(values - {value}, plan, used.Keys);
    CountHexTexts(ID_LENGTH);
    if HexTexts(ID_LENGTH) <= used.Keys {
      Within(HexTexts(ID_LENGTH), used.Keys);
    }
  }

  lemma Within<T>(few: set<T>, many: set<T>)
    requires few <= many
    ensures |few| <= |many|
  {
    assert many == few + (many - few);
  }

  /** More values than canonical ids cannot be planned for at all. */
  lemma PlanNeedsRoom(values: set<Value>, plan: Plan)
    requires IsPlan(values, plan)
    ensures |values| <= Power(16, ID_LENGTH)
  {
    hide HexTexts, Power, Canonical;
    var texts := set v | v in values :: Renamed(plan, v).text;
    TextsOfPlan(values, plan, values, texts);
    CountHexTexts(ID_LENGTH);
    forall text | text in texts ensures text in HexTexts(ID_LENGTH) {
      CanonicalText(text);
    }
    Within(texts, HexTexts(ID_LENGTH));
  }

  lemma CanonicalText(text: string)
    ensures Canonical(text) <==> text in HexTexts(ID_LENGTH)
  {
    HexTextsAre(ID_LENGTH, text);
  }

  lemma {:induction false} TextsOfPlan(values: set<Value>, plan: Plan, some: set<Value>, texts: set<string>)
    requires IsPlan(values, plan) && some <= values
    requires forall v <- some :: Renamed(plan, v).Id?
    requires texts == set v | v in some :: Renamed(plan, v).text
    ensures |texts| == |some|
  {
    if some != {} {
      var v :| v in some;
      RenamingIsInjectiveOn(values, plan, some, v);
      TextsOfPlan(values, plan, some - {v}, texts - {Renamed(plan, v).text});
    }
  }

  lemma RenamingIsInjectiveOn(values: set<Value>, plan: Plan, some: set<Value>, v: Value)
    requires IsPlan(values, plan) && some <= values && v in some
    requires forall w <- some :: Renamed(plan, w).Id?
    ensures forall w <- some :: Renamed(plan, w).text == Renamed(plan, v).text <==> w == v
  {
    forall w | w in some ensures Renamed(plan, w).text == Renamed(plan, v).text <==> w == v {
      RenamingIsInjective(values, plan, w, v);
    }
  }

  lemma SkipCanonical(values: set<Value>, done: set<Value>, plan: Plan, value: Value)
    requires PartPlan(values, done, plan) && IsCanonical(value)
    ensures PartPlan(values, done + {value}, plan)
  {
  }

  /** A text that is in use is in use for another value, so what the loop settles on is unused. */
  lemma CandidateIsNew(values: set<Value>, done: set<Value>, plan: Plan, used: map<string, Value>,
                       value: Value, candidate: string)
    requires PartPlan(values, done, plan) && UsedBy(values, plan, used) && value !in done &&
             !IsCanonical(value)
    requires candidate in used ==> used[candidate] == value
    ensures candidate !in used
  {
  }

  lemma NotYetPlanned(values: set<Value>, done: set<Value>, plan: Plan, value: Value)
    requires PartPlan(values, done, plan) && value !in done
    ensures value !in plan
  {
  }

  lemma WholePlan(values: set<Value>, plan: Plan)
    requires PartPlan(values, values, plan)
    ensures IsPlan(values, plan) && KeepsHex(values, plan)
  {
  }

  // ---------------------------------------------------------------- documents

  /** A document: the ids it was once known by, the references it holds field by field, the rest. */
  datatype Document = Document(legacyIds: seq<string>, references: seq<seq<Value>>, content: string)

  type Documents = map<Value, Document>

  function LegacyString(v: Value): string {
    match v
    case Id(text) => text
    case ObjectId(hex) => hex
    case Unsupported => ""
  }

  function AppendUnique(items: seq<string>, item: string): (r: seq<string>)
    ensures forall s :: s in r <==> s in items || s == item
  {
    if item in items then items else items + [item]
  }

  function Replaced(values: seq<Value>, was: Value, becomes: Value): seq<Value> {
    seq(|values|, k requires 0 <= k < |values| => if values[k] == was then becomes else values[k])
  }

  function AllRenamed(plan: Plan, values: seq<Value>): seq<Value> {
    seq(|values|, k requires 0 <= k < |values| => Renamed(plan, values[k]))
  }

  /** A document under its new id: it remembers the old one where lookups by old ids are to work. */
  function Rekeyed(plan: Plan, preserveLegacy: bool, v: Value, d: Document): Document {
    if v in plan && preserveLegacy && LegacyString(v) != plan[v]
    then d.(legacyIds := AppendUnique(d.legacyIds, LegacyString(v)))
    else d
  }

  class Collection {
    var documents: Documents

    /** The updates of a bulk write are applied in no particular order; the outcome is that of renaming
        everything at once. */
    method RewriteReferences(values: set<Value>, plan: Plan)
      requires IsPlan(values, plan)
      requires forall id <- documents :: forall refs <- documents[id].references :: forall v <- refs :: v in values
      modifies this
      ensures documents.Keys == old(documents.Keys)
      ensures forall id <- old(documents) ::
                documents[id] == old(documents)[id].(references := RewrittenAll(plan, old(documents)[id].references))
    {
      var left := plan.Keys;
      assert plan - left == map[];
      ghost var start := documents;
      NothingRewritten(start);
      while left != {}
        invariant left <= plan.Keys
        invariant documents.Keys == start.Keys
        invariant forall id <- start ::
                    documents[id] == start[id].(references := RewrittenAll(plan - left, start[id].references))
        decreases left
      {
        var value :| value in left;
        ghost var before := documents;
        documents := map id | id in documents ::
          documents[id].(references := ReplacedAll(documents[id].references, value, Id(plan[value])));
        forall id <- start
          ensures documents[id] == start[id].(references := RewrittenAll(plan - (left - {value}), start[id].references))
        {
          OneMoreRewritten(values, plan, left, value, start[id].references);
        }
        left := left - {value};
      }
      assert plan - left == plan;
    }

    /** Delete the documents whose id changes, insert them under their new ids, and replace the others in
        place. An insertion fails on an id that is taken. */
    method ReplaceDocuments(changes: seq<Change>) returns (ok: bool)
      modifies this
      ensures var base := old(documents) - Originals(Changing(changes));
              ok <==> Insertable(base, Changing(changes))
      ensures ok ==> documents == Put(Put(old(documents) - Originals(Changing(changes)), Changing(changes)),
              Staying(changes))
    {
      var moved, kept := Split(changes);
      documents := documents - Originals(moved);
      ok := InsertMany(moved);
      if ok {
        ReplaceMany(kept);
      }
    }

    method InsertMany(changes: seq<Change>) returns (ok: bool)
      modifies this
      ensures ok <==> Insertable(old(documents), changes)
      ensures ok ==> documents == Put(old(documents), changes)
    {
      ghost var base := documents;
      for k := 0 to |changes|
        invariant documents == Put(base, changes[..k]) && Insertable(base, changes[..k])
      {
        if Id(changes[k].id) in documents {
          InsertableFirst(base, changes, k);
          return false;
        }
        assert changes[..k + 1][..k] == changes[..k];
        PutKeys(base, changes[..k]);
        InsertableMore(base, changes, k);
        documents := documents[Id(changes[k].id) := changes[k].document];
      }
      assert changes[..|changes|] == changes;
      ok := true;
    }

    method ReplaceMany(changes: seq<Change>)
      modifies this
      ensures documents == Put(old(documents), changes)
    {
      for k := 0 to |changes|
        invariant documents == Put(old(documents), changes[..k])
      {
        assert changes[..k + 1][..k] == changes[..k];
        documents := documents[Id(changes[k].id) := changes[k].document];
      }
      assert changes[..|changes|] == changes;
    }

    /** Move every document the plan has a new id for; none is lost and none overwritten. */
    method RekeyCollection(values: set<Value>, plan: Plan, preserveLegacy: bool) returns (ok: bool)
      requires IsPlan(values, plan) && documents.Keys <= values
      modifies this
      ensures ok && RekeyedAll(plan, preserveLegacy, old(documents), documents)
    {
      hide IsPlan;
      ghost var start := documents;
      var left := documents.Keys * plan.Keys;
      var changes: seq<Change> := [];
      while left != {}
        invariant left <= start.Keys * plan.Keys && documents == start
        invariant ChangesFor(plan, preserveLegacy, start, start.Keys * plan.Keys - left, changes)
        decreases left
      {
        var id :| id in left;
        var change := Change(id, plan[id], Rekeyed(plan, preserveLegacy, id, documents[id]));
        OneMoreChange(plan, preserveLegacy, start, start.Keys * plan.Keys - left, changes, change);
        assert start.Keys * plan.Keys - left + {id} == start.Keys * plan.Keys - (left - {id});
        changes := changes + [change];
        left := left - {id};
      }
      assert start.Keys * plan.Keys - left == start.Keys * plan.Keys;
      ok := ReplaceDocuments(changes);
      PlanIsInsertable(values, plan, preserveLegacy, start, changes);
    }
  }

  // ---------------------------------------------------------------- replacing documents

  /** A document to be written under `id` in place of the one stored as `original`. */
  datatype Change = Change(original: Value, id: string, document: Document)

  function Changing(changes: seq<Change>): seq<Change> {
    if changes == [] then []
    else
      var last := changes[|changes| - 1];
      Changing(changes[..|changes| - 1]) + if last.original == Id(last.id) then [] else [last]
  }

  function Staying(changes: seq<Change>): seq<Change> {
    if changes == [] then []
    else
      var last := changes[|changes| - 1];
      Staying(changes[..|changes| - 1]) + if last.original == Id(last.id) then [last] else []
  }

  function Originals(changes: seq<Change>): set<Value> {
    set c | c in changes :: c.original
  }

  function Put(documents: Documents, changes: seq<Change>): Documents {
    if changes == [] then documents
    else
      var last := changes[|changes| - 1];
      Put(documents, changes[..|changes| - 1])[Id(last.id) := last.document]
  }

  /** The new ids are all different and none is taken. */
  ghost predicate Insertable(documents: Documents, changes: seq<Change>) {
    && (forall i, j :: 0 <= i < j < |changes| ==> changes[i].id != changes[j].id)
    && (forall k :: 0 <= k < |changes| ==> Id(changes[k].id) !in documents)
  }

  lemma {:induction false} PutKeys(documents: Documents, changes: seq<Change>)
    ensures forall v :: v in Put(documents, changes) <==>
              v in documents || exists k :: 0 <= k < |changes| && v == Id(changes[k].id)
  {
    if changes != [] {
      PutKeys(documents, changes[..|changes| - 1]);
    }
  }

  lemma InsertableMore(documents: Documents, changes: seq<Change>, k: nat)
    requires k < |changes| && Insertable(documents, changes[..k]) && Id(changes[k].id) !in documents
    requires forall j :: 0 <= j < k ==> changes[..k][j].id != changes[k].id
    ensures Insertable(documents, changes[..k + 1])
  {
    assert forall j :: 0 <= j < k ==> changes[..k + 1][j] == changes[..k][j];
  }

  method Split(changes: seq<Change>) returns (moved: seq<Change>, kept: seq<Change>)
    ensures moved == Changing(changes) && kept == Staying(changes)
  {
    moved, kept := [], [];
    for k := 0 to |changes|
      invariant moved == Changing(changes[..k]) && kept == Staying(changes[..k])
    {
      assert changes[..k + 1][..k] == changes[..k];
      if changes[k].original == Id(changes[k].id) {
        kept := kept + [changes[k]];
      } else {
        moved := moved + [changes[k]];
      }
    }
    assert changes[..|changes|] == changes;
  }

  lemma InsertableFirst(documents: Documents, changes: seq<Change>, k: nat)
    requires k < |changes| && Id(changes[k].id) in Put(documents, changes[..k])
    ensures !Insertable(documents, changes)
  {
    PutKeys(documents, changes[..k]);
    if Id(changes[k].id) !in documents {
      var j :| 0 <= j < k && changes[..k][j].id == changes[k].id;
      assert changes[j].id == changes[k].id;
    }
  }

  /** Inserted documents are found under their new ids, the others as before. */
  lemma {:induction false} PutFinds(documents: Documents, changes: seq<Change>)
    requires Insertable(documents, changes)
    ensures forall k :: 0 <= k < |changes| ==>
              Id(changes[k].id) in Put(documents, changes) &&
                  Put(documents, changes)[Id(changes[k].id)] == changes[k].document
    ensures forall v <- documents :: v in Put(documents, changes) && Put(documents, changes)[v] == documents[v]
  {
    if changes != [] {
      PutFinds(documents, changes[..|changes| - 1]);
    }
  }

  ghost predicate ChangesFor(plan: Plan, preserveLegacy: bool, start: Documents, done: set<Value>,
                             changes: seq<Change>) {
    && (forall k :: 0 <= k < |changes| ==> var v := changes[k].original;
          v in done && v in plan && v in start &&
              changes[k] == Change(v, plan[v], Rekeyed(plan, preserveLegacy, v, start[v])))
    && (forall v <- done :: exists k :: 0 <= k < |changes| && changes[k].original == v)
    && (forall i, j :: 0 <= i < j < |changes| ==> changes[i].original != changes[j].original)
  }

  lemma OneMoreChange(plan: Plan, preserveLegacy: bool, start: Documents, done: set<Value>, changes: seq<Change>,
                      c: Change)
    requires ChangesFor(plan, preserveLegacy, start, done, changes) && c.original !in done && c.original in plan &&
             c.original in start
    requires c == Change(c.original, plan[c.original], Rekeyed(plan, preserveLegacy, c.original, start[c.original]))
    ensures ChangesFor(plan, preserveLegacy, start, done + {c.original}, changes + [c])
  {
    var more := changes + [c];
    forall v <- done + {c.original} ensures exists k :: 0 <= k < |more| && more[k].original == v {
      if v == c.original {
        assert more[|changes|].original == v;
      } else {
        var k :| 0 <= k < |changes| && changes[k].original == v;
        assert more[k].original == v;
      }
    }
  }

  /** Every document is found under its new id, changed only in what it remembers, and there are no others. */
  ghost predicate RekeyedAll(plan: Plan, preserveLegacy: bool, before: Documents, after: Documents) {
    && (forall v <- before ::
          Renamed(plan, v) in after && after[Renamed(plan, v)] == Rekeyed(plan, preserveLegacy, v, before[v]))
    && (forall w <- after :: exists v <- before :: w == Renamed(plan, v))
  }

  lemma {:induction false} AllChanging(changes: seq<Change>)
    requires forall k :: 0 <= k < |changes| ==> changes[k].original != Id(changes[k].id)
    ensures Changing(changes) == changes && Staying(changes) == []
  {
    if changes != [] {
      AllChanging(changes[..|changes| - 1]);
      assert changes == changes[..|changes| - 1] + [changes[|changes| - 1]];
    }
  }

  lemma PlanIsInsertable(values: set<Value>, plan: Plan, preserveLegacy: bool, start: Documents,
                         changes: seq<Change>)
    requires IsPlan(values, plan) && start.Keys <= values
    requires ChangesFor(plan, preserveLegacy, start, start.Keys * plan.Keys, changes)
    ensures Changing(changes) == changes && Staying(changes) == [] && Insertable(start - Originals(changes), changes)
    ensures RekeyedAll(plan, preserveLegacy, start, Put(start - Originals(changes), changes))
  {
    AllChanging(changes);
    var base := start - Originals(changes);
    PutKeys(base, changes);
    PutFinds(base, changes);
    RekeyedByPut(values, plan, preserveLegacy, start, changes, Put(base, changes));
  }

  lemma RekeyedByPut(values: set<Value>, plan: Plan, preserveLegacy: bool, start: Documents,
                     changes: seq<Change>, after: Documents)
    requires IsPlan(values, plan) && start.Keys <= values
    requires ChangesFor(plan, preserveLegacy, start, start.Keys * plan.Keys, changes)
    requires forall v :: v in after <==>
               v in start - Originals(changes) || exists k :: 0 <= k < |changes| && v == Id(changes[k].id)
    requires forall k :: 0 <= k < |changes| ==> after[Id(changes[k].id)] == changes[k].document
    requires forall v <- start - Originals(changes) :: after[v] == start[v]
    ensures RekeyedAll(plan, preserveLegacy, start, after)
  {
    hide Rekeyed, ChangesFor;
    ChangesAre(plan, preserveLegacy, start, changes);
    forall v <- start ensures Renamed(plan, v) in after &&
        after[Renamed(plan, v)] == Rekeyed(plan, preserveLegacy, v, start[v]) {
      if v in plan {
        assert v in start.Keys * plan.Keys;
        var k :| 0 <= k < |changes| && changes[k].original == v;
        assert Renamed(plan, v) == Id(changes[k].id);
      } else {
        assert v in start - Originals(changes);
        UnplannedStays(plan, preserveLegacy, v, start[v]);
      }
    }
    forall w <- after ensures exists v <- start :: w == Renamed(plan, v) {
      if w in start - Originals(changes) {
        assert w !in plan && w == Renamed(plan, w);
      } else {
        var k :| 0 <= k < |changes| && w == Id(changes[k].id);
        assert w == Renamed(plan, changes[k].original);
      }
    }
  }

  lemma ChangesAre(plan: Plan, preserveLegacy: bool, start: Documents, changes: seq<Change>)
    requires ChangesFor(plan, preserveLegacy, start, start.Keys * plan.Keys, changes)
    ensures forall k :: 0 <= k < |changes| ==>
              var v := changes[k].original;
              v in plan && v in start && changes[k] == Change(v, plan[v], Rekeyed(plan, preserveLegacy, v, start[v]))
    ensures forall v <- start.Keys * plan.Keys :: exists k :: 0 <= k < |changes| && changes[k].original == v
  {
  }

  lemma UnplannedStays(plan: Plan, preserveLegacy: bool, v: Value, d: Document)
    requires v !in plan
    ensures Rekeyed(plan, preserveLegacy, v, d) == d
  {
  }

  function ReplacedAll(references: seq<seq<Value>>, was: Value, becomes: Value): seq<seq<Value>> {
    seq(|references|, k requires 0 <= k < |references| => Replaced(references[k], was, becomes))
  }

  function RewrittenAll(plan: Plan, references: seq<seq<Value>>): seq<seq<Value>> {
    seq(|references|, k requires 0 <= k < |references| => AllRenamed(plan, references[k]))
  }

  lemma NothingRewritten(documents: Documents)
    ensures forall id <- documents ::
              documents[id].(references := RewrittenAll(map[], documents[id].references)) == documents[id]
  {
    forall id <- documents ensures RewrittenAll(map[], documents[id].references) == documents[id].references {
      forall k | 0 <= k < |documents[id].references|
        ensures AllRenamed(map[], documents[id].references[k]) == documents[id].references[k]
      {
      }
    }
  }

  /** One update more: new ids are never old ones, so no value is rewritten twice. */
  lemma OneMoreRewritten(values: set<Value>, plan: Plan, left: set<Value>, value: Value,
                         references: seq<seq<Value>>)
    requires IsPlan(values, plan) && left <= plan.Keys && value in left
    requires forall refs <- references :: forall v <- refs :: v in values
    ensures ReplacedAll(RewrittenAll(plan - left, references), value, Id(plan[value])) ==
            RewrittenAll(plan - (left - {value}), references)
  {
    forall k | 0 <= k < |references|
      ensures Replaced(AllRenamed(plan - left, references[k]), value, Id(plan[value])) ==
              AllRenamed(plan - (left - {value}), references[k])
    {
    }
  }

  // ---------------------------------------------------------------- what the migration preserves

  /** Field `f`, entry `k` of `d` refers to the document stored under `id`. */
  predicate PointsAt(d: Document, f: nat, k: nat, id: Value) {
    f < |d.references| && k < |d.references[f]| && d.references[f][k] == id
  }

  /** A reference points at a document after the migration exactly if it did before. */
  lemma ReferencesArePreserved(values: set<Value>, plan: Plan, d: Document, f: nat, k: nat, id: Value)
    requires IsPlan(values, plan) && id in values
    requires forall refs <- d.references :: forall v <- refs :: v in values
    ensures PointsAt(d.(references := RewrittenAll(plan, d.references)), f, k, Renamed(plan, id)) <==>
            PointsAt(d, f, k, id)
  {
    if f < |d.references| && k < |d.references[f]| {
      assert d.references[f] in d.references && d.references[f][k] in d.references[f];
      RenamingIsInjective(values, plan, d.references[f][k], id);
    }
  }

  lemma {:induction false} SameCount(values: set<Value>, plan: Plan, ids: set<Value>, renamed: set<Value>)
    requires IsPlan(values, plan) && ids <= values && renamed == set v | v in ids :: Renamed(plan, v)
    ensures |renamed| == |ids|
  {
    if ids != {} {
      var v :| v in ids;
      SameCount(values, plan, ids - {v}, renamed - {Renamed(plan, v)});
    }
  }

  /** No document is lost or merged. */
  lemma NothingIsLost(values: set<Value>, plan: Plan, preserveLegacy: bool, before: Documents,
                      after: Documents)
    requires IsPlan(values, plan) && before.Keys <= values && RekeyedAll(plan, preserveLegacy, before, after)
    ensures |after.Keys| == |before.Keys|
    ensures forall id <- after :: IsCanonical(id)
  {
    assert after.Keys == set v | v in before.Keys :: Renamed(plan, v);
    SameCount(values, plan, before.Keys, after.Keys);
  }

  /** The documents a lookup by a text id matches. */
  function Found(documents: Documents, text: string): set<Value> {
    set v | v in documents && (v == Id(text) || text in documents[v].legacyIds)
  }

  /** The documents that went by this text, as their id in either type or as an older one. */
  function KnownAs(documents: Documents, text: string): set<Value> {
    set v | v in documents && (LegacyString(v) == text || text in documents[v].legacyIds)
  }

  /** Looking up an old id after the migration matches exactly the documents that went by it. */
  lemma LookupByOldId(values: set<Value>, plan: Plan, before: Documents, after: Documents, text: string)
    requires IsPlan(values, plan) && before.Keys <= values && RekeyedAll(plan, true, before, after)
    requires Unsupported !in values && forall v <- plan :: plan[v] == text ==> LegacyString(v) == text
    ensures Found(after, text) == set v | v in KnownAs(before, text) :: Renamed(plan, v)
  {
    forall v <- before ensures Renamed(plan, v) in Found(after, text) <==> v in KnownAs(before, text) {
      assert Renamed(plan, v) in after && after[Renamed(plan, v)] == Rekeyed(plan, true, v, before[v]);
    }
  }

  /** An old id stays unambiguous exactly if it was not in use both as a text and as an object id. */
  lemma OldIdIsUnambiguous(values: set<Value>, plan: Plan, before: Documents, after: Documents, text: string)
    requires IsPlan(values, plan) && before.Keys <= values && RekeyedAll(plan, true, before, after)
    requires Unsupported !in values && forall v <- plan :: plan[v] == text ==> LegacyString(v) == text
    requires forall v <- before :: before[v].legacyIds == []
    ensures (forall v, w :: v in Found(after, text) && w in Found(after, text) ==> v == w) <==>
            !(Id(text) in before && ObjectId(text) in before)
  {
    hide RekeyedAll, IsPlan;
    LookupByOldId(values, plan, before, after, text);
    if Id(text) in before && ObjectId(text) in before {
      RenamingIsInjective(values, plan, Id(text), ObjectId(text));
      assert Id(text) in KnownAs(before, text) && ObjectId(text) in KnownAs(before, text);
      assert Renamed(plan, Id(text)) in Found(after, text) && Renamed(plan, ObjectId(text)) in Found(after, text);
    }
  }
}
