/** Edge-type identifiers stored at one, two or four bytes, widening in place as larger ones arrive.
    The all-ones value of each width is reserved. */
module EdgeTypes {
  import opened Prelude

  /** Reserved logical identifier. */
  const SENTINEL: nat := U32_MAX

  datatype Width = One | Two | Four {
    function Bytes(): nat {
      match this
      case One => 1
      case Two => 2
      case Four => 4
    }

    function AllOnes(): nat {
      match this
      case One => U8_MAX
      case Two => U16_MAX
      case Four => U32_MAX
    }
  }

  function SelectForMaxId(maxId: nat): Width {
    if maxId <= U8_MAX - 1 then One
    else if maxId < U16_MAX then Two
    else Four
  }

  function Wider(a: Width, b: Width): Width {
    if a.Bytes() < b.Bytes() then b else a
  }

  /** The width chosen is the narrowest whose reserved value lies above the identifier. */
  lemma SelectionIsNarrowest(id: nat, w: Width)
    requires id < SENTINEL
    ensures id < w.AllOnes() <==> SelectForMaxId(id).Bytes() <= w.Bytes()
  {
  }

  function MaxId(ids: seq<nat>): nat {
    if ids == [] then 0
    else
      var rest := MaxId(ids[..|ids| - 1]);
      if rest < ids[|ids| - 1] then ids[|ids| - 1] else rest
  }

  /** The width a column reaches by taking identifiers one at a time. */
  function GrownWidth(start: Width, ids: seq<nat>): Width {
    if ids == [] then start
    else Wider(GrownWidth(start, ids[..|ids| - 1]), SelectForMaxId(ids[|ids| - 1]))
  }

  /** Growing one identifier at a time from the narrowest width ends where choosing once from the
      largest identifier would have started. */
  lemma {:induction false} GrowthIsSelection(ids: seq<nat>)
    ensures GrownWidth(One, ids) == SelectForMaxId(MaxId(ids))
  {
    if ids != [] {
      GrowthIsSelection(ids[..|ids| - 1]);
    }
  }

  datatype Column = Bytes(b: seq<u8>) | Halves(h: seq<u16>) | Words(w: seq<u32>) {
    function Width(): Width {
      match this
      case Bytes(_) => One
      case Halves(_) => Two
      case Words(_) => Four
    }

    /** The identifiers stored, whatever their width. */
    function Ids(): seq<nat> {
      match this
      case Bytes(b) => b
      case Halves(h) => h
      case Words(w) => w
    }

    predicate HoldsSentinel() {
      match this
      case Bytes(b) => U8_MAX in b
      case Halves(h) => U16_MAX in h
      case Words(w) => U32_MAX in w
    }
  }

  /** Columns of equal width and contents are equal. */
  lemma SameColumn(a: Column, b: Column)
    requires a.Width() == b.Width() && a.Ids() == b.Ids()
    ensures a == b
  {
  }

  class EdgeTypeStorage {
    var column: Column

    ghost predicate Valid()
      reads this
    {
      !column.HoldsSentinel()
    }

    constructor ()
      ensures Valid() && column == Bytes([])
    {
      column := Bytes([]);
    }

    constructor WithWidth(width: Width)
      ensures Valid() && column.Ids() == [] && column.Width() == width
    {
      column := match width
        case One => Bytes([])
        case Two => Halves([])
        case Four => Words([]);
    }

    /** Re-encode every stored identifier at a larger width; a smaller or equal one changes nothing. */
    method Widen(target: Width)
      requires Valid()
      modifies this
      ensures Valid() && column.Ids() == old(column.Ids())
      ensures column.Width() == Wider(old(column.Width()), target)
    {
      match column {
        case Bytes(b) =>
          if target == Two {
            column := Halves(seq(|b|, i requires 0 <= i < |b| => b[i]));
          } else if target == Four {
            column := Words(seq(|b|, i requires 0 <= i < |b| => b[i]));
          }
        case Halves(h) =>
          if target == Four {
            column := Words(seq(|h|, i requires 0 <= i < |h| => h[i]));
          }
        case Words(_) =>
      }
      assert column.Ids() == old(column.Ids());
    }

    /** Make the column wide enough for one more identifier, or refuse the reserved one. */
    method PreparePush(typeId: nat) returns (r: Result<()>)
      requires Valid() && typeId <= U32_MAX
      modifies this
      ensures Valid() && column.Ids() == old(column.Ids())
      ensures r == if typeId == SENTINEL then Err(EdgeTypeLimit) else Ok(())
      ensures column.Width() == if r.Ok? then Wider(old(column.Width()), SelectForMaxId(typeId)) else old(column.Width())
    {
      if typeId == SENTINEL {
        return Err(EdgeTypeLimit);
      }
      var required := SelectForMaxId(typeId);
      if column.Width().Bytes() < required.Bytes() {
        Widen(required);
      }
      return Ok(());
    }

    /** Append one identifier, widening first if it does not fit; the reserved one is refused and
        changes nothing. */
    method TryPush(typeId: nat) returns (r: Result<()>)
      requires Valid() && typeId <= U32_MAX
      modifies this
      ensures Valid()
      ensures r == if typeId == SENTINEL then Err(EdgeTypeLimit) else Ok(())
      ensures column.Ids() == if r.Ok? then old(column.Ids()) + [typeId] else old(column.Ids())
      ensures column.Width() == if r.Ok? then Wider(old(column.Width()), SelectForMaxId(typeId)) else old(column.Width())
    {
      r := PreparePush(typeId);
      if r.Err? {
        return;
      }
      match column {
        case Bytes(b) => column := Bytes(b + [typeId]);
        case Halves(h) => column := Halves(h + [typeId]);
        case Words(w) => column := Words(w + [typeId]);
      }
    }
  }
}
