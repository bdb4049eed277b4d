/** The parts of DState that are received in front of the symbols of a block (dep/bzip2/bzlib_private.h). */
module BlockTables {
  import opened MappingTable
  import opened Selectors
  import opened CodeTables
  import opened SymbolStream

  class BlockTables {
    const maps: Maps
    const sels: SelectorTable
    const codes: CodeTables
    var nGroups: nat
    var nSelectors: nat
    ghost const Repr: set<object>

    ghost predicate Valid()
    {
      && maps.Valid() && sels.Valid() && codes.Valid() && Repr == {this} + maps.Repr + sels.Repr + codes.Repr
      && this !in maps.Repr && this !in sels.Repr && this !in codes.Repr
      && maps.Repr !! sels.Repr && maps.Repr !! codes.Repr && sels.Repr !! codes.Repr
    }

    constructor ()
      ensures Valid() && fresh(Repr)
    {
      var m := new Maps();
      var s := new SelectorTable();
      var c := new CodeTables();
      maps, sels, codes := m, s, c;
      nGroups, nSelectors := 0, 0;
      Repr := {this} + m.Repr + s.Repr + c.Repr;
    }

    /** Everything is there that the symbols of a block with these constants are decoded with. */
    ghost predicate Fitting(c: Coded)
      requires Valid()
      reads Repr
    {
      && WellCoded(c) && nSelectors <= BZ_MAX_SELECTORS && c.sel == sels.selector[..nSelectors]
      && codes.Made(c.tables)
      && 1 <= maps.nInUse <= 256 && c.eob == maps.nInUse + 1 && c.unseq == maps.seqToUnseq[..maps.nInUse]
    }
  }
}
