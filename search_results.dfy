/**
 * The search result that every stage shares: an insertion-ordered dictionary
 * from file path to the file's matches, each match a 1-based line number
 * with the line's text. Python dictionaries iterate in insertion order and
 * all three output formats expose that order, so the dictionary is an
 * ordered sequence of entries rather than a Dafny map.
 */
module SearchResults {
  import opened Wrappers

  /** `(line_counter, line)`: a line number and the matched line as read. */
  type Match = (int, string)

  /** One dictionary entry: a file path and its match list. */
  type Entry = (string, seq<Match>)

  /** The dictionary, in insertion order. */
  type SearchResult = seq<Entry>

  /** The keys in iteration order. */
  function Keys(d: SearchResult): (ks: seq<string>)
    ensures |ks| == |d| && forall i :: 0 <= i < |d| ==> ks[i] == d[i].0
  {
    if d == [] then [] else [d[0].0] + Keys(d[1..])
  }

  /** A dictionary never holds a key twice. */
  predicate DistinctKeys(d: SearchResult) {
    forall i, j :: 0 <= i < j < |d| ==> d[i].0 != d[j].0
  }

  /** `d.get(k)`. */
  function Get(d: SearchResult, k: string): (r: Option<seq<Match>>)
    ensures r.None? <==> k !in Keys(d)
    ensures r.Some? ==> exists i :: 0 <= i < |d| && d[i] == (k, r.value)
  {
    if d == [] then None
    else if d[0].0 == k then Some(d[0].1)
    else
      var r := Get(d[1..], k);
      assert r.Some? ==> exists i :: 1 <= i < |d| && d[i] == (k, r.value) by {
        if r.Some? {
          var i :| 0 <= i < |d[1..]| && d[1..][i] == (k, r.value);
          assert d[i + 1] == (k, r.value);
        }
      }
      r
  }

  /**
   * `d[k] = v`: an existing key keeps its position and takes the new value;
   * a new key goes at the end.
   */
  function Put(d: SearchResult, k: string, v: seq<Match>): (r: SearchResult)
    requires DistinctKeys(d)
    ensures DistinctKeys(r)
    ensures Keys(r) == if k in Keys(d) then Keys(d) else Keys(d) + [k]
    ensures Get(r, k) == Some(v)
    ensures forall k' :: k' != k ==> Get(r, k') == Get(d, k')
  {
    if k in Keys(d) then
      var r := seq(|d|, i requires 0 <= i < |d| => if d[i].0 == k then (k, v) else d[i]);
      assert Keys(r) == Keys(d);
      GetAt(r, k, v);
      forall k' | k' != k ensures Get(r, k') == Get(d, k') {
        GetReplaced(d, r, k, k');
      }
      r
    else
      var r := d + [(k, v)];
      assert Keys(r) == Keys(d) + [k];
      assert r[|d|] == (k, v);
      GetAt(r, k, v);
      forall k' | k' != k ensures Get(r, k') == Get(d, k') {
        GetAppended(d, k, v, k');
      }
      r
  }

  /** In a dictionary with distinct keys, the entry that holds a key is the one Get finds. */
  lemma {:induction false} GetAt(d: SearchResult, k: string, v: seq<Match>)
    requires DistinctKeys(d)
    requires exists i :: 0 <= i < |d| && d[i] == (k, v)
    ensures Get(d, k) == Some(v)
  {
    var i :| 0 <= i < |d| && d[i] == (k, v);
    if i > 0 {
      assert d[1..][i - 1] == (k, v);
      GetAt(d[1..], k, v);
    }
  }

  lemma {:induction false} GetReplaced(d: SearchResult, r: SearchResult, k: string, k': string)
    requires |r| == |d| && k != k'
    requires forall i :: 0 <= i < |d| ==> r[i] == if d[i].0 == k then (k, r[i].1) else d[i]
    ensures Get(r, k') == Get(d, k')
  {
    if d != [] {
      GetReplaced(d[1..], r[1..], k, k');
    }
  }

  lemma {:induction false} GetAppended(d: SearchResult, k: string, v: seq<Match>, k': string)
    requires k != k'
    ensures Get(d + [(k, v)], k') == Get(d, k')
  {
    if d == [] {
      assert Get([(k, v)][1..], k') == None;
    } else {
      assert (d + [(k, v)])[1..] == d[1..] + [(k, v)];
      GetAppended(d[1..], k, v, k');
    }
  }
}
