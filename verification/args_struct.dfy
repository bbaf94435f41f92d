/**
 The loader's target record, `args_struct`: 54 configuration fields in a
 fixed order. Slots 1-5 are integers (the diagnostics flag and four years);
 slots 6-54 are strings (nine directory paths, then file names). The record
 is owned by the caller and filled in place, so it is a class whose two
 fields hold the integer slots and the string slots in order.
 */
module ArgsStruct {

  /** Number of configuration slots, `NUM_IN_ARGS`. */
  const NUM_IN_ARGS: nat := 54
  /** Slots 1..NUM_INT_ARGS are integers. */
  const NUM_INT_ARGS: nat := 5
  /** Slots NUM_INT_ARGS+1..NUM_IN_ARGS are strings. */
  const NUM_STR_ARGS: nat := NUM_IN_ARGS - NUM_INT_ARGS

  /** The struct members of the integer slots, slot k at index k-1. */
  const IntSlotNames: seq<string> := [
    "diagnostics", "out_year_prod_ha_lr", "in_year_sage_crops", "out_year_usd",
    "in_year_lr_usd"
  ]

  /** The struct members of the string slots, slot k at index k-6. */
  const StrSlotNames: seq<string> := [
    "inpath", "outpath", "sagepath", "hydepath", "lulcpath",
    "mircapath", "wfpath", "ldsdestpath", "mapdestpath", "cell_area_fname",
    "land_area_sage_fname", "land_area_hyde_fname", "aez_new_fname",
    "aez_orig_fname", "potveg_fname", "country_fao_fname", "protected_fname",
    "nfert_rast_fname", "cropland_sage_fname", "rent_orig_fname",
    "country87_gtap_fname", "country87map_fao_fname", "country_all_fname",
    "aez_new_info_fname", "countrymap_iso_gcam_region_fname",
    "regionlist_gcam_fname", "use_gtap_fname", "lt_sage_fname", "lu_hyde_fname",
    "lulc_fname", "crop_fname", "production_fao_fname", "yield_fao_fname",
    "harvestarea_fao_fname", "prodprice_fao_fname", "convert_usd_fname",
    "vegc_csv_fname", "soilc_csv_fname", "lds_logname", "harvestarea_fname",
    "production_fname", "rent_fname", "mirca_irr_fname", "mirca_rfd_fname",
    "land_type_area_fname", "refveg_carbon_fname", "wf_fname", "iso_map_fname",
    "lt_map_fname"
  ]

  predicate IsSlot(k: int) {
    1 <= k <= NUM_IN_ARGS
  }

  predicate IsIntSlot(k: int) {
    1 <= k <= NUM_INT_ARGS
  }

  /** The struct member that slot `k` is stored in, in the order of `switch (count)`. */
  function SlotName(k: int): string
    requires IsSlot(k)
  {
    var names := IntSlotNames + StrSlotNames;
    names[k - 1]
  }

  /**
   The name tables fit the schema: five integer members and 49 string
   members, so that each of the 54 slots has a name, slot k is named by
   the k-th entry; the integer slots run from `diagnostics` to
   `in_year_lr_usd` and the last slot is `lt_map_fname`.
   */
  lemma SlotNamesFitSchema()
    ensures |IntSlotNames| == NUM_INT_ARGS && |StrSlotNames| == NUM_STR_ARGS
    ensures forall k :: IsSlot(k) ==>
      SlotName(k) == if IsIntSlot(k) then IntSlotNames[k - 1] else StrSlotNames[k - 1 - NUM_INT_ARGS]
    ensures SlotName(1) == "diagnostics" && SlotName(NUM_INT_ARGS) == "in_year_lr_usd"
    ensures SlotName(NUM_IN_ARGS) == "lt_map_fname"
  {
    assert IntSlotNames[0] == "diagnostics";
    assert IntSlotNames[NUM_INT_ARGS - 1] == "in_year_lr_usd";
    assert StrSlotNames[NUM_STR_ARGS - 1] == "lt_map_fname";
  }

  /** The content of one slot, whichever its kind. */
  datatype Value = IntValue(n: int) | StrValue(s: string)

  predicate WellSized(ints: seq<int>, strs: seq<string>) {
    |ints| == NUM_INT_ARGS && |strs| == NUM_STR_ARGS
  }

  /** Slot `k` of a record whose integer slots are `ints` and string slots `strs`. */
  function SlotOf(ints: seq<int>, strs: seq<string>, k: int): (v: Value)
    requires WellSized(ints, strs) && IsSlot(k)
    ensures v.IntValue? <==> IsIntSlot(k)
  {
    if IsIntSlot(k) then IntValue(ints[k - 1]) else StrValue(strs[k - 1 - NUM_INT_ARGS])
  }

  class InArgs {
    /** `diagnostics` .. `in_year_lr_usd`, slots 1-5. */
    var ints: seq<int>
    /** `inpath` .. `lt_map_fname`, slots 6-54. */
    var strs: seq<string>

    ghost predicate Valid()
      reads this
    {
      WellSized(ints, strs)
    }

    /** A record with the given prior contents (the caller's storage before loading). */
    constructor (ints0: seq<int>, strs0: seq<string>)
      requires WellSized(ints0, strs0)
      ensures Valid() && ints == ints0 && strs == strs0
    {
      ints := ints0;
      strs := strs0;
    }

    function Slot(k: int): Value
      reads this
      requires Valid() && IsSlot(k)
    {
      SlotOf(ints, strs, k)
    }
  }
}
