/** Chip identity and palette: the fixed four-entry palette and the id counter that stamps every new chip. */
module Chips {
  import opened Wrappers
  import opened Vectors
  import opened Matrix

  /** A palette entry: a chip kind and the colour it is drawn in. */
  datatype ChipMeta = ChipMeta(kind: string, color: string)

  /** A chip: its identity, its kind and its colour; a new chip is a new value. */
  datatype Chip = Chip(id: int, kind: string, color: string)

  /** `chipMetaList`. */
  const Palette: seq<ChipMeta> := [
    ChipMeta("a", "black"),
    ChipMeta("b", "red"),
    ChipMeta("c", "blue"),
    ChipMeta("d", "white")
  ]

  predicate DistinctKinds(metas: seq<ChipMeta>) {
    forall i, j :: 0 <= i < j < |metas| ==> metas[i].kind != metas[j].kind
  }

  predicate IsPaletteKind(kind: string) {
    exists i :: 0 <= i < |Palette| && Palette[i].kind == kind
  }

  /** A chip whose kind and colour form one palette entry. */
  predicate IsPaletteChip(chip: Chip) {
    ChipMeta(chip.kind, chip.color) in Palette
  }

  /** The palette has four entries whose kinds a, b, c, d and colours black, red, blue, white are each pairwise distinct. */
  lemma PaletteIsOneToOne()
    ensures |Palette| == 4 && DistinctKinds(Palette)
    ensures forall i, j :: 0 <= i < j < |Palette| ==> Palette[i].color != Palette[j].color
    ensures forall i :: 0 <= i < |Palette| ==> Palette[i].color != "yellow"
  {
  }

  /** `Array.find` on the palette: the first entry of the given kind. */
  function FindMeta(metas: seq<ChipMeta>, kind: string): Option<ChipMeta> {
    if metas == [] then None
    else if metas[0].kind == kind then Some(metas[0])
    else FindMeta(metas[1..], kind)
  }

  /**
   * `find` yields an entry of the requested kind exactly when the list holds
   * one, and then it yields the first such entry.
   */
  lemma {:induction false} FindMetaFacts(metas: seq<ChipMeta>, kind: string)
    ensures var r := FindMeta(metas, kind);
      && (r.Some? <==> exists i :: 0 <= i < |metas| && metas[i].kind == kind)
      && (r.Some? ==> r.value in metas && r.value.kind == kind)
      && (r.Some? ==> exists i :: 0 <= i < |metas| && metas[i] == r.value &&
                                  forall j :: 0 <= j < i ==> metas[j].kind != kind)
    decreases |metas|
  {
    if metas != [] && metas[0].kind == kind {
      assert metas[0] == FindMeta(metas, kind).value;
    } else if metas != [] {
      var tail := metas[1..];
      FindMetaFacts(tail, kind);
      var r := FindMeta(metas, kind);
      if r.None? {
        forall i | 0 <= i < |metas|
          ensures metas[i].kind != kind
        {
          if i > 0 {
            assert metas[i] == tail[i - 1];
          }
        }
      } else {
        var i :| 0 <= i < |tail| && tail[i] == r.value && forall j :: 0 <= j < i ==> tail[j].kind != kind;
        assert metas[i + 1] == r.value;
        forall j | 0 <= j < i + 1
          ensures metas[j].kind != kind
        {
          if j > 0 {
            assert metas[j] == tail[j - 1];
          }
        }
      }
    }
  }

  /** The palette entry for a kind, falling back to the first entry when the kind is unknown. */
  function MetaFor(kind: string): ChipMeta {
    match FindMeta(Palette, kind)
    case Some(meta) => meta
    case None => Palette[0]
  }

  /** A known kind gets its own palette entry; an unknown kind gets the first entry ('a', black). */
  lemma MetaForFacts(kind: string)
    ensures MetaFor(kind) in Palette
    ensures IsPaletteKind(kind) ==> MetaFor(kind).kind == kind
    ensures !IsPaletteKind(kind) ==> MetaFor(kind) == ChipMeta("a", "black")
  {
    FindMetaFacts(Palette, kind);
  }

  /** The chip `createChip` builds for an id and a requested kind. */
  function NewChip(id: int, kind: string): Chip {
    var meta := MetaFor(kind);
    Chip(id, meta.kind, meta.color)
  }

  /** A new chip carries the given id and a palette kind and colour: the requested kind when the palette has it. */
  lemma NewChipFacts(id: int, kind: string)
    ensures NewChip(id, kind).id == id && IsPaletteChip(NewChip(id, kind))
    ensures IsPaletteKind(kind) ==> NewChip(id, kind).kind == kind
  {
    MetaForFacts(kind);
  }

  /** Every chip of the matrix has its own id. */
  ghost predicate DistinctIds(m: seq<seq<Chip>>) {
    forall p, q :: InBounds(m, p) && InBounds(m, q) && p != q ==> m[p.y][p.x].id != m[q.y][q.x].id
  }

  ghost predicate AllPaletteChips(m: seq<seq<Chip>>) {
    forall p :: InBounds(m, p) ==> IsPaletteChip(m[p.y][p.x])
  }

  /** The chip manager: the `nextChipId` counter. */
  class ChipManager {
    var nextChipId: int

    constructor (firstId: int)
      ensures nextChipId == firstId
    {
      nextChipId := firstId;
    }

    /** `createChip`: hands out the current counter value as the new chip's id and bumps the counter by one. */
    method CreateChip(kind: string) returns (chip: Chip)
      modifies this
      ensures chip.id == old(nextChipId) && nextChipId == old(nextChipId) + 1
      ensures chip == NewChip(chip.id, kind)
    {
      var meta := MetaFor(kind);
      chip := Chip(nextChipId, meta.kind, meta.color);
      nextChipId := nextChipId + 1;
    }
  }
}
