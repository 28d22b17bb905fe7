/** The fill_translations management command
    (store/management/commands/fill_translations.py): every empty translated name or
    description of a product is set to the original text, and the products that had
    at least one empty field are saved and counted. */
module FillTranslations {
  import opened Models

  /** Python falsiness of a nullable text column: null or the empty string. */
  predicate Blank(f: Option<string>)
  {
    f == None || f == Some("")
  }

  /** One `if not p.field: p.field = source` step. */
  function FillField(f: Option<string>, source: string): (r: Option<string>)
    ensures !Blank(f) ==> r == f
    ensures Blank(f) ==> r == Some(source)
  {
    if Blank(f) then Some(source) else f
  }

  /** The `changed` flag of the loop body: some translation field was empty. */
  predicate NeedsFill(p: Product)
  {
    Blank(p.nameRu) || Blank(p.nameKg) || Blank(p.nameEn) ||
    Blank(p.descriptionRu) || Blank(p.descriptionKg) || Blank(p.descriptionEn)
  }

  /** The product after the six conditional assignments of the loop body. */
  function Filled(p: Product): Product
  {
    p.(nameRu := FillField(p.nameRu, p.name),
       nameKg := FillField(p.nameKg, p.name),
       nameEn := FillField(p.nameEn, p.name),
       descriptionRu := FillField(p.descriptionRu, p.description),
       descriptionKg := FillField(p.descriptionKg, p.description),
       descriptionEn := FillField(p.descriptionEn, p.description))
  }

  /** The number of products the pass saves. */
  function CountNeedingFill(ps: seq<Product>): (n: nat)
    ensures n <= |ps|
  {
    if ps == [] then 0 else (if NeedsFill(ps[0]) then 1 else 0) + CountNeedingFill(ps[1..])
  }

  /** The pass over all products: each row is replaced by its filled form, and
      `updated` counts the rows that had an empty translation field. */
  method FillAll(rows: array<Product>) returns (updated: nat)
    modifies rows
    ensures forall i :: 0 <= i < rows.Length ==> rows[i] == Filled(old(rows[i]))
    ensures updated == CountNeedingFill(old(rows[..]))
    ensures updated <= rows.Length
  {
    ghost var before := rows[..];
    updated := 0;
    for i := 0 to rows.Length
      invariant forall k :: 0 <= k < i ==> rows[k] == Filled(before[k])
      invariant forall k :: i <= k < rows.Length ==> rows[k] == before[k]
      invariant updated + CountNeedingFill(before[i..]) == CountNeedingFill(before)
    {
      var p := rows[i];
      var nameRu, nameKg, nameEn := p.nameRu, p.nameKg, p.nameEn;
      var descriptionRu, descriptionKg, descriptionEn := p.descriptionRu, p.descriptionKg, p.descriptionEn;
      var changed := false;
      if Blank(nameRu) {
        nameRu := Some(p.name);
        changed := true;
      }
      if Blank(nameKg) {
        nameKg := Some(p.name);
        changed := true;
      }
      if Blank(nameEn) {
        nameEn := Some(p.name);
        changed := true;
      }
      if Blank(descriptionRu) {
        descriptionRu := Some(p.description);
        changed := true;
      }
      if Blank(descriptionKg) {
        descriptionKg := Some(p.description);
        changed := true;
      }
      if Blank(descriptionEn) {
        descriptionEn := Some(p.description);
        changed := true;
      }
      assert changed == NeedsFill(before[i]);
      assert before[i..][1..] == before[i + 1..];
      if changed {
        rows[i] := p.(nameRu := nameRu, nameKg := nameKg, nameEn := nameEn,
                      descriptionRu := descriptionRu, descriptionKg := descriptionKg, descriptionEn := descriptionEn);
        updated := updated + 1;
      }
    }
    assert before[rows.Length..] == [];
  }

  /** Every empty field is set to its source text, every non-empty one is kept. */
  lemma FilledFields(p: Product)
    ensures Filled(p).nameRu == (if Blank(p.nameRu) then Some(p.name) else p.nameRu)
    ensures Filled(p).nameKg == (if Blank(p.nameKg) then Some(p.name) else p.nameKg)
    ensures Filled(p).nameEn == (if Blank(p.nameEn) then Some(p.name) else p.nameEn)
    ensures Filled(p).descriptionRu == (if Blank(p.descriptionRu) then Some(p.description) else p.descriptionRu)
    ensures Filled(p).descriptionKg == (if Blank(p.descriptionKg) then Some(p.description) else p.descriptionKg)
    ensures Filled(p).descriptionEn == (if Blank(p.descriptionEn) then Some(p.description) else p.descriptionEn)
    ensures Filled(p) == p.(nameRu := Filled(p).nameRu, nameKg := Filled(p).nameKg, nameEn := Filled(p).nameEn,
                            descriptionRu := Filled(p).descriptionRu, descriptionKg := Filled(p).descriptionKg,
                            descriptionEn := Filled(p).descriptionEn)
  {
  }

  /** A product with no empty field is left as it is. */
  lemma FilledUnchangedUnlessNeeded(p: Product)
    ensures !NeedsFill(p) ==> Filled(p) == p
  {
  }

  /** A second pass gives the same field values as the first. */
  lemma FilledIdempotent(p: Product)
    ensures Filled(Filled(p)) == Filled(p)
  {
  }

  /** A second pass still saves (and counts) a product exactly when the first pass
      copied an empty name or an empty description, which leaves the field empty. */
  lemma NeedsFillAfterFill(p: Product)
    ensures NeedsFill(Filled(p)) <==>
      (p.name == "" && (Blank(p.nameRu) || Blank(p.nameKg) || Blank(p.nameEn))) ||
      (p.description == "" && (Blank(p.descriptionRu) || Blank(p.descriptionKg) || Blank(p.descriptionEn)))
  {
  }

  /** Running the pass twice on a table yields the rows of one run. */
  lemma {:induction false} FillTwiceSameRows(ps: seq<Product>)
    ensures var once := seq(|ps|, i requires 0 <= i < |ps| => Filled(ps[i]));
            seq(|ps|, i requires 0 <= i < |ps| => Filled(once[i])) == once
  {
    forall i | 0 <= i < |ps| {
      FilledIdempotent(ps[i]);
    }
  }
}
