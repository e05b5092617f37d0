// Board names by description (board/loongson/common/loongson_board_info.c):
// two parallel NULL-terminated tables, descriptions and board names, of the
// configured SoC. The table contents come from a header that is not part of
// this model, so the tables are parameters.

module BoardInfo {
  import opened Opt

  /** The tables without their NULL sentinels, entry by entry parallel. */
  predicate Parallel(descs: seq<string>, names: seq<string>)
  {
    |descs| == |names|
  }

  /** The search of get_board_name_by_desc from `index` on. */
  function Search(desc: string, descs: seq<string>, names: seq<string>, index: nat): Option<string>
    requires Parallel(descs, names) && index <= |descs|
    decreases |descs| - index
  {
    if index == |descs| then None
    else if descs[index] == desc then Some(names[index])
    else Search(desc, descs, names, index + 1)
  }

  /** get_board_name_by_desc: a NULL description gives NULL. */
  function BoardNameByDesc(desc: Option<string>, descs: seq<string>, names: seq<string>): Option<string>
    requires Parallel(descs, names)
  {
    match desc
    case None => None
    case Some(d) => Search(d, descs, names, 0)
  }

  /**
   * From `index` on: no result exactly when no later description matches;
   * a result is the name beside the first matching description.
   */
  lemma {:induction false} SearchSpec(desc: string, descs: seq<string>, names: seq<string>, index: nat)
    requires Parallel(descs, names) && index <= |descs|
    ensures Search(desc, descs, names, index).None? <==> forall j | index <= j < |descs| :: descs[j] != desc
    ensures Search(desc, descs, names, index).Some? ==>
      exists i | index <= i < |descs| :: descs[i] == desc && names[i] == Search(desc, descs, names, index).value &&
        forall j | index <= j < i :: descs[j] != desc
    decreases |descs| - index
  {
    if index < |descs| && descs[index] != desc {
      SearchSpec(desc, descs, names, index + 1);
    }
  }

  /**
   * NULL gives NULL; otherwise the result is NULL exactly when the
   * description is not in the table, and is else the name at the index of
   * its first occurrence, so it always comes from the name table.
   */
  lemma BoardNameByDescSpec(desc: Option<string>, descs: seq<string>, names: seq<string>)
    requires Parallel(descs, names)
    ensures desc.None? ==> BoardNameByDesc(desc, descs, names).None?
    ensures desc.Some? ==> (BoardNameByDesc(desc, descs, names).None? <==> desc.value !in descs)
    ensures BoardNameByDesc(desc, descs, names).Some? ==>
      desc.Some? && BoardNameByDesc(desc, descs, names).value in names &&
      exists i | 0 <= i < |descs| :: descs[i] == desc.value && names[i] == BoardNameByDesc(desc, descs, names).value &&
        desc.value !in descs[..i]
  {
    if desc.Some? {
      SearchSpec(desc.value, descs, names, 0);
      var r := BoardNameByDesc(desc, descs, names);
      if r.Some? {
        var i :| 0 <= i < |descs| && descs[i] == desc.value && names[i] == r.value &&
          forall j | 0 <= j < i :: descs[j] != desc.value;
        assert desc.value !in descs[..i];
      }
    }
  }

  /** With a description listed twice, the first entry's name wins. */
  lemma FirstEntryWins()
    ensures BoardNameByDesc(Some("d"), ["d", "d"], ["a", "b"]) == Some("a")
    ensures BoardNameByDesc(Some("e"), ["d", "d"], ["a", "b"]) == None
  {
  }
}
