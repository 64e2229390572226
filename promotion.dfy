/** Discount-code administration (src/promotion/promotion.service.ts).

    The discount table is keyed by the unique code; the administration endpoints address a row
    by its id. Create rejects a code already in use and a percentage outside 0..100; update
    merges the supplied type and value with the stored ones and checks the merged pair. */
module Promotion {
  import opened Common
  import opened Schema

  /** The values the database fills in for a new discount row. */
  const InitialUsedCount: int := 0
  const InitialIsActive: bool := true

  datatype NewPromotion = NewPromotion(
    code: string,
    kind: DiscountKind,
    description: Option<string>,
    value: real,
    startDate: Option<int>,
    endDate: Option<int>,
    usageLimit: Option<int>)

  /** The fields of an update; `None` is a field left out of the request. A date given as an
      empty string is also `None`. */
  datatype PromotionPatch = PromotionPatch(
    code: Option<string>,
    kind: Option<DiscountKind>,
    description: Option<string>,
    value: Option<real>,
    startDate: Option<int>,
    endDate: Option<int>,
    usageLimit: Option<int>)

  /** A percentage discount must lie between 0 and 100; other kinds are not range-checked. */
  predicate PercentageInRange(kind: DiscountKind, value: real) {
    kind == Percentage ==> 0.0 <= value <= 100.0
  }

  predicate PercentagesInRange(discounts: map<string, Discount>) {
    forall c :: c in discounts ==> PercentageInRange(discounts[c].kind, discounts[c].value)
  }

  /** Row ids are a primary key. */
  predicate UniqueIds(discounts: map<string, Discount>) {
    forall c, d :: c in discounts && d in discounts && c != d ==> discounts[c].id != discounts[d].id
  }

  /** The code of the row `findUnique({ where: { id } })` finds. */
  function CodeOf(discounts: map<string, Discount>, id: string): (r: Option<string>)
    requires UniqueIds(discounts)
    ensures r.Some? <==> exists c :: c in discounts && discounts[c].id == id
    ensures r.Some? ==> r.value in discounts && discounts[r.value].id == id
  {
    if exists c :: c in discounts && discounts[c].id == id then
      var c :| c in discounts && discounts[c].id == id;
      Some(c)
    else None
  }

  /** The row `createNewPromotionCode` stores, or why it refuses. */
  function CreatePromotion(discounts: map<string, Discount>, p: NewPromotion, newId: string): (r: Result<Discount>)
    ensures r.Ok? <==> p.code !in discounts && PercentageInRange(p.kind, p.value)
    ensures p.code in discounts ==> r == Err(Conflict("Promotion with this code already exists"))
    ensures p.code !in discounts && !PercentageInRange(p.kind, p.value) ==>
      r == Err(BadRequest("Percentage value must be between 0 and 100"))
    ensures r.Ok? ==> && r.value.id == newId && r.value.kind == p.kind && r.value.value == p.value
                      && r.value.description == p.description && r.value.usageLimit == p.usageLimit
                      && r.value.startDate == p.startDate && r.value.endDate == p.endDate
                      && r.value.usedCount == Some(InitialUsedCount) && r.value.isActive == InitialIsActive
  {
    if p.code in discounts then
      Err(Conflict("Promotion with this code already exists"))
    else if !PercentageInRange(p.kind, p.value) then
      Err(BadRequest("Percentage value must be between 0 and 100"))
    else
      Ok(Discount(newId, p.kind, p.value, p.description, p.startDate, p.endDate, p.usageLimit,
                  Some(InitialUsedCount), InitialIsActive))
  }

  /** `data.type !== undefined ? data.type : existing.type`, and the same for the value. */
  function EffectiveKind(patch: PromotionPatch, d: Discount): DiscountKind {
    if patch.kind.Some? then patch.kind.value else d.kind
  }

  function EffectiveValue(patch: PromotionPatch, d: Discount): real {
    if patch.value.Some? then patch.value.value else d.value
  }

  function Keep<T>(supplied: Option<T>, current: T): T {
    if supplied.Some? then supplied.value else current
  }

  /** The row after applying a patch: supplied fields replace stored ones, everything else,
      including the usage count and the active flag, is kept. */
  function Patched(d: Discount, patch: PromotionPatch): (r: Discount)
    ensures r.id == d.id && r.usedCount == d.usedCount && r.isActive == d.isActive
    ensures r.kind == (if patch.kind.Some? then patch.kind.value else d.kind)
    ensures r.value == (if patch.value.Some? then patch.value.value else d.value)
    ensures patch.description.Some? ==> r.description == patch.description
    ensures patch.description.None? ==> r.description == d.description
    ensures patch.startDate.Some? ==> r.startDate == patch.startDate
    ensures patch.startDate.None? ==> r.startDate == d.startDate
    ensures patch.endDate.Some? ==> r.endDate == patch.endDate
    ensures patch.endDate.None? ==> r.endDate == d.endDate
    ensures patch.usageLimit.Some? ==> r.usageLimit == patch.usageLimit
    ensures patch.usageLimit.None? ==> r.usageLimit == d.usageLimit
  {
    d.(kind := EffectiveKind(patch, d), value := EffectiveValue(patch, d),
       description := if patch.description.Some? then patch.description else d.description,
       startDate := if patch.startDate.Some? then patch.startDate else d.startDate,
       endDate := if patch.endDate.Some? then patch.endDate else d.endDate,
       usageLimit := if patch.usageLimit.Some? then patch.usageLimit else d.usageLimit)
  }

  datatype Updated = Updated(oldCode: string, newCode: string, row: Discount)

  /** `updatePromotionCode`: the row before and after, or why it refuses. Renaming onto a code
      another row holds violates the unique index, an error the service does not catch. */
  function UpdatePromotion(discounts: map<string, Discount>, id: string, patch: PromotionPatch): (r: Result<Updated>)
    requires UniqueIds(discounts)
    ensures CodeOf(discounts, id).None? ==> r == Err(NotFound("Discount not found"))
    ensures r.Ok? <==> (CodeOf(discounts, id).Some? &&
      var code := CodeOf(discounts, id).value;
      var d := discounts[code];
      && PercentageInRange(EffectiveKind(patch, d), EffectiveValue(patch, d))
      && (Keep(patch.code, code) == code || Keep(patch.code, code) !in discounts))
    ensures r.Ok? ==> && CodeOf(discounts, id) == Some(r.value.oldCode)
                      && r.value.newCode == Keep(patch.code, r.value.oldCode)
                      && r.value.row == Patched(discounts[r.value.oldCode], patch)
                      && PercentageInRange(r.value.row.kind, r.value.row.value)
    ensures CodeOf(discounts, id).Some? ==>
      var code := CodeOf(discounts, id).value;
      var d := discounts[code];
      && (!PercentageInRange(EffectiveKind(patch, d), EffectiveValue(patch, d)) ==>
            r == Err(BadRequest("Percentage value must be between 0 and 100")))
      && (PercentageInRange(EffectiveKind(patch, d), EffectiveValue(patch, d)) &&
          Keep(patch.code, code) != code && Keep(patch.code, code) in discounts ==>
            r == Err(Internal("Unique constraint failed on the fields: (`code`)")))
  {
    match CodeOf(discounts, id)
    case None => Err(NotFound("Discount not found"))
    case Some(code) =>
      var d := discounts[code];
      if !PercentageInRange(EffectiveKind(patch, d), EffectiveValue(patch, d)) then
        Err(BadRequest("Percentage value must be between 0 and 100"))
      else
        var newCode := Keep(patch.code, code);
        if newCode != code && newCode in discounts then
          Err(Internal("Unique constraint failed on the fields: (`code`)"))
        else
          Ok(Updated(code, newCode, Patched(d, patch)))
  }

  function Rekey(discounts: map<string, Discount>, u: Updated): map<string, Discount> {
    (discounts - {u.oldCode})[u.newCode := u.row]
  }

  /** Creating, updating and deleting discount codes keep every stored percentage discount
      within 0..100, and keep row ids unique. */
  lemma CreateKeepsInvariants(discounts: map<string, Discount>, p: NewPromotion, newId: string)
    requires PercentagesInRange(discounts) && UniqueIds(discounts)
    requires forall c :: c in discounts ==> discounts[c].id != newId
    requires CreatePromotion(discounts, p, newId).Ok?
    ensures var after := discounts[p.code := CreatePromotion(discounts, p, newId).value];
      PercentagesInRange(after) && UniqueIds(after)
  {
  }

  lemma UpdateKeepsInvariants(discounts: map<string, Discount>, id: string, patch: PromotionPatch)
    requires PercentagesInRange(discounts) && UniqueIds(discounts)
    requires UpdatePromotion(discounts, id, patch).Ok?
    ensures var after := Rekey(discounts, UpdatePromotion(discounts, id, patch).value);
      PercentagesInRange(after) && UniqueIds(after)
  {
    var u := UpdatePromotion(discounts, id, patch).value;
    var after := Rekey(discounts, u);
    forall c, e | c in after && e in after && c != e
      ensures after[c].id != after[e].id
    {
      if c == u.newCode {
        assert after[e] == discounts[e] && e != u.oldCode;
      } else if e == u.newCode {
        assert after[c] == discounts[c] && c != u.oldCode;
      }
    }
  }

  /** Switching a discount to the percentage kind without a new value checks the stored value:
      a fixed discount worth more than 100 cannot become a percentage. */
  lemma KindSwitchChecksStoredValue(discounts: map<string, Discount>, id: string, patch: PromotionPatch)
    requires UniqueIds(discounts) && CodeOf(discounts, id).Some?
    requires patch.kind == Some(Percentage) && patch.value.None?
    requires discounts[CodeOf(discounts, id).value].value > 100.0
    ensures UpdatePromotion(discounts, id, patch) == Err(BadRequest("Percentage value must be between 0 and 100"))
  {
  }

  /** `createNewPromotionCode`. */
  method CreateNewPromotionCode(db: Db, p: NewPromotion, newId: string) returns (r: Result<Discount>)
    requires forall c :: c in db.discounts ==> db.discounts[c].id != newId
    modifies db`discounts
    ensures r == CreatePromotion(old(db.discounts), p, newId)
    ensures r.Ok? ==> db.discounts == old(db.discounts)[p.code := r.value]
    ensures r.Err? ==> db.discounts == old(db.discounts)
  {
    if p.code in db.discounts {
      return Err(Conflict("Promotion with this code already exists"));
    }
    if p.kind == Percentage && (p.value < 0.0 || p.value > 100.0) {
      return Err(BadRequest("Percentage value must be between 0 and 100"));
    }
    var row := Discount(newId, p.kind, p.value, p.description, p.startDate, p.endDate, p.usageLimit,
                        Some(InitialUsedCount), InitialIsActive);
    db.discounts := db.discounts[p.code := row];
    r := Ok(row);
  }

  /** `updatePromotionCode`. */
  method UpdatePromotionCode(db: Db, id: string, patch: PromotionPatch) returns (r: Result<Discount>)
    requires UniqueIds(db.discounts)
    modifies db`discounts
    ensures var u := UpdatePromotion(old(db.discounts), id, patch);
      && (u.Ok? ==> r == Ok(u.value.row) && db.discounts == Rekey(old(db.discounts), u.value))
      && (u.Err? ==> r == Err(u.error) && db.discounts == old(db.discounts))
  {
    var u := UpdatePromotion(db.discounts, id, patch);
    if u.Err? {
      return Err(u.error);
    }
    db.discounts := Rekey(db.discounts, u.value);
    r := Ok(u.value.row);
  }

  /** `removePromotionCode`: deletes exactly the row with that id. */
  lemma RemoveKeepsInvariants(discounts: map<string, Discount>, id: string)
    requires PercentagesInRange(discounts) && UniqueIds(discounts)
    requires CodeOf(discounts, id).Some?
    ensures var after := discounts - {CodeOf(discounts, id).value};
      && PercentagesInRange(after) && UniqueIds(after)
      && forall c :: c in after ==> after[c].id != id
  {
  }

  method RemovePromotionCode(db: Db, id: string) returns (r: Result<Discount>)
    requires UniqueIds(db.discounts)
    modifies db`discounts
    ensures var code := CodeOf(old(db.discounts), id);
      && (code.None? ==> r == Err(NotFound("Discount not found")) && db.discounts == old(db.discounts))
      && (code.Some? ==> r == Ok(old(db.discounts)[code.value]) && db.discounts == old(db.discounts) - {code.value})
  {
    var code := CodeOf(db.discounts, id);
    if code.None? {
      return Err(NotFound("Discount not found"));
    }
    r := Ok(db.discounts[code.value]);
    db.discounts := db.discounts - {code.value};
  }
}
