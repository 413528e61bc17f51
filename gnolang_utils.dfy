/** The two list searches of gnovm/pkg/gnolang/utils.go. */
module GnoLangUtils {
  import opened GoStrings

  /** contains: some element of `list` equals `item`. */
  function Contains(list: seq<string>, item: string): (r: bool)
    ensures r <==> exists i :: 0 <= i < |list| && list[i] == item
  {
    if list == [] then false
    else list[0] == item || Contains(list[1..], item)
  }

  /** endsWith: some element of `list` is a suffix of `item`. */
  function EndsWith(list: seq<string>, item: string): (r: bool)
    ensures r <==> exists i :: 0 <= i < |list| && HasSuffix(item, list[i])
  {
    if list == [] then false
    else HasSuffix(item, list[0]) || EndsWith(list[1..], item)
  }

  /** Neither search finds anything in an empty list. */
  lemma EmptyListFindsNothing(item: string)
    ensures !Contains([], item) && !EndsWith([], item)
  {
  }

  /** The empty string is a suffix of every string, so a list holding it
      makes endsWith true for every item. */
  lemma EmptySuffixMatchesAll(list: seq<string>, item: string)
    requires "" in list
    ensures EndsWith(list, item)
  {
    var i :| 0 <= i < |list| && list[i] == "";
    assert HasSuffix(item, list[i]);
  }

  /** An element equal to the item is also a suffix of it. */
  lemma ContainsImpliesEndsWith(list: seq<string>, item: string)
    requires Contains(list, item)
    ensures EndsWith(list, item)
  {
    var i :| 0 <= i < |list| && list[i] == item;
    assert HasSuffix(item, list[i]);
  }
}
