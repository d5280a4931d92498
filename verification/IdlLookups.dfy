/** What the IDL lookups find, in terms of the ABIs alone. */
module IdlLookups {
  import opened Common
  import opened Snapshots
  import opened AbiRegistry
  import opened IdlTypes

  // Item j of a document is an event (for Topic) or an instruction (for Selector) of the
  // program, with the discriminator of its name; what is found is that name, and the
  // layout of the item's fields.
  ghost predicate Fits(o: Oracles, sig: Sig, a: Abi, j: int, found: (string, Layout), program: string, disc: string) {
    && a.kind == "solana_idl" && a.body.Document? && a.body.programId == program && program != "" && 0 <= j
    && match sig
       case Topic =>
         && j < |a.body.events| && found.0 == a.body.events[j].name && o.eventDisc(found.0) == disc
         && IsStructOf(found.1, a.body.events[j].fields, a.body.types)
       case Selector =>
         && j < |a.body.instructions| && found.0 == a.body.instructions[j].name && o.callDisc(found.0) == disc
         && IsStructOf(found.1, a.body.instructions[j].fields, a.body.types)
  }

  // The first item of the first document that fits: item j of document i.
  ghost predicate FirstFits(o: Oracles, sig: Sig, abis: seq<Abi>, i: int, j: int, found: (string, Layout),
                            program: string, disc: string)
  {
    && 0 <= i < |abis| && Fits(o, sig, abis[i], j, found, program, disc)
    && (forall k, m :: Fits(o, sig, abis[i], k, m, program, disc) ==> j <= k)
    && (forall h, k, m :: 0 <= h < i ==> !Fits(o, sig, abis[h], k, m, program, disc))
  }

  // ----- Items as the index meets them -----

  lemma ItemFits(o: Oracles, sig: Sig, a: Abi, j: nat, program: string, disc: string)
    requires j < |IdlItemsOf(sig, a)|
    ensures a.body.Document?
    ensures var e := Get(IdlEntryItem(o, sig, a, IdlItemsOf(sig, a)[j]), (program, disc));
            && (e.Some? ==> Fits(o, sig, a, j, (e.value.1, e.value.2), program, disc))
            && (e.None? ==> forall l :: !Fits(o, sig, a, j, l, program, disc))
  {
    hide BuildStruct, IsStructOf;
    var it := IdlItemsOf(sig, a)[j];
    var built := BuildStruct(it.fields, a.body.types);
    forall l ensures built == Some(l) <==> IsStructOf(l, it.fields, a.body.types) {
      BuildStructIsExact(it.fields, a.body.types, l);
    }
  }

  // Every item that fits is among those the index meets.
  lemma FittingIsMet(o: Oracles, sig: Sig, a: Abi, j: int, found: (string, Layout), program: string, disc: string)
    requires Fits(o, sig, a, j, found, program, disc)
    ensures 0 <= j < |IdlItemsOf(sig, a)|
  {
  }

  lemma LastIdlItem(o: Oracles, sig: Sig, a: Abi, items: seq<IdlItem>, n: nat)
    requires 0 < n <= |items| && a.body.Document?
    ensures IdlEntryItems(o, sig, a, items[..n])
            == IdlEntryItems(o, sig, a, items[..n - 1]) + IdlEntryItem(o, sig, a, items[n - 1])
  {
    assert items[..n][..n - 1] == items[..n - 1];
  }

  lemma {:induction false} FirstOfItems(o: Oracles, sig: Sig, a: Abi, n: nat, program: string, disc: string)
    requires n <= |IdlItemsOf(sig, a)|
    ensures var items := IdlItemsOf(sig, a)[..n];
            && (items != [] ==> a.body.Document?)
            && var e := Get(IdlEntryItems(o, sig, a, items), (program, disc));
               && (e.Some? ==> exists j :: 0 <= j < n && Fits(o, sig, a, j, (e.value.1, e.value.2), program, disc)
                                           && forall k, l :: k < j ==> !Fits(o, sig, a, k, l, program, disc))
               && (e.None? ==> forall k, l :: k < n ==> !Fits(o, sig, a, k, l, program, disc))
  {
    if n > 0 {
      hide Fits, Get, IdlItemsOf, IdlEntryItem, IdlEntryItems;
      var items := IdlItemsOf(sig, a);
      FirstOfItems(o, sig, a, n - 1, program, disc);
      ItemFits(o, sig, a, n - 1, program, disc);
      LastIdlItem(o, sig, a, items, n);
      GetConcat(IdlEntryItems(o, sig, a, items[..n - 1]), IdlEntryItem(o, sig, a, items[n - 1]), (program, disc));
    }
  }

  // All items of one ABI.
  lemma FirstOfAbi(o: Oracles, sig: Sig, a: Abi, program: string, disc: string)
    ensures var e := Get(IdlEntryItems(o, sig, a, IdlItemsOf(sig, a)), (program, disc));
            && (e.Some? ==> exists j :: 0 <= j < |IdlItemsOf(sig, a)|
                                        && Fits(o, sig, a, j, (e.value.1, e.value.2), program, disc)
                                        && forall k, l :: Fits(o, sig, a, k, l, program, disc) ==> j <= k)
            && (e.None? ==> forall k, l :: !Fits(o, sig, a, k, l, program, disc))
  {
    hide Fits, Get, IdlItemsOf, IdlEntryItems;
    var items := IdlItemsOf(sig, a);
    FirstOfItems(o, sig, a, |items|, program, disc);
    assert items[..|items|] == items;
    forall k, l | Fits(o, sig, a, k, l, program, disc) ensures 0 <= k < |items| {
      FittingIsMet(o, sig, a, k, l, program, disc);
    }
  }

  lemma {:induction false} FirstOfAbis(o: Oracles, sig: Sig, abis: seq<Abi>, n: nat, program: string, disc: string)
    requires n <= |abis|
    ensures var e := Get(IdlItems(o, sig, abis[..n]), (program, disc));
            && (e.Some? ==> exists i, j :: 0 <= i < n
                                           && FirstFits(o, sig, abis, i, j, (e.value.1, e.value.2), program, disc))
            && (e.None? ==> forall i, j, l :: 0 <= i < n ==> !Fits(o, sig, abis[i], j, l, program, disc))
  {
    hide Fits, IdlItemsOf, IdlEntryItems;
    if n > 0 {
      hide Get, IdlItems;
      var a := abis[n - 1];
      FirstOfAbis(o, sig, abis, n - 1, program, disc);
      FirstOfAbi(o, sig, a, program, disc);
      OneMoreIdl(o, sig, abis[..n - 1], a);
      assert abis[..n] == abis[..n - 1] + [a];
      GetConcat(IdlItems(o, sig, abis[..n - 1]), IdlEntryItems(o, sig, a, IdlItemsOf(sig, a)), (program, disc));
      var e := Get(IdlItems(o, sig, abis[..n - 1]), (program, disc));
      var more := Get(IdlEntryItems(o, sig, a, IdlItemsOf(sig, a)), (program, disc));
      if e.None? && more.Some? {
        var found := (more.value.1, more.value.2);
        var j :| 0 <= j && Fits(o, sig, a, j, found, program, disc)
          && forall k, f :: Fits(o, sig, a, k, f, program, disc) ==> j <= k;
        assert FirstFits(o, sig, abis, n - 1, j, found, program, disc);
      }
    } else {
      NoItems(o, sig);
      assert abis[..0] == [];
    }
  }

  lemma OneFirst(o: Oracles, sig: Sig, abis: seq<Abi>, i: int, j: int, f: (string, Layout), k: int, m: int,
                 g: (string, Layout), program: string, disc: string)
    requires FirstFits(o, sig, abis, i, j, f, program, disc) && FirstFits(o, sig, abis, k, m, g, program, disc)
    ensures i == k && j == m
  {
    hide Fits;
    assert Fits(o, sig, abis[i], j, f, program, disc) && Fits(o, sig, abis[k], m, g, program, disc);
  }

  lemma OneLayout(o: Oracles, sig: Sig, a: Abi, j: int, f: (string, Layout), g: (string, Layout), program: string,
                  disc: string)
    requires Fits(o, sig, a, j, f, program, disc) && Fits(o, sig, a, j, g, program, disc)
    ensures f == g
  {
    hide IsStructOf, BuildStruct;
    var items := if sig == Topic then a.body.events else a.body.instructions;
    BuildStructIsExact(items[j].fields, a.body.types, f.1);
    BuildStructIsExact(items[j].fields, a.body.types, g.1);
  }

  // The IDL lookups: an event (or instruction) of the program with the discriminator is
  // found exactly when one with a layout within the cap exists, and it is the first of
  // the first such document, with its name and the layout of its fields.
  lemma IdlLookupIsFirstMatch(o: Oracles, sig: Sig, abis: seq<Abi>, program: string, disc: string,
                              found: (string, Layout))
    ensures LookupIdl(o, sig, abis, (program, disc)) == Hit(found)
            <==> exists i, j :: FirstFits(o, sig, abis, i, j, found, program, disc)
    ensures LookupIdl(o, sig, abis, (program, disc)) == Miss
            <==> forall i, j, f :: 0 <= i < |abis| ==> !Fits(o, sig, abis[i], j, f, program, disc)
  {
    hide Fits, Get, IdlItems;
    FirstOfAbis(o, sig, abis, |abis|, program, disc);
    assert abis[..|abis|] == abis;
    var e := Get(IdlItems(o, sig, abis), (program, disc));
    if exists i, j :: FirstFits(o, sig, abis, i, j, found, program, disc) {
      var i, j :| FirstFits(o, sig, abis, i, j, found, program, disc);
      var k, m :| FirstFits(o, sig, abis, k, m, (e.value.1, e.value.2), program, disc);
      OneFirst(o, sig, abis, i, j, found, k, m, (e.value.1, e.value.2), program, disc);
      OneLayout(o, sig, abis[i], j, found, (e.value.1, e.value.2), program, disc);
    }
  }
}
