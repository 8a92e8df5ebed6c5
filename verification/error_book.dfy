/**
 * The error book: a fixed list of past corrections and a search box. An
 * entry is listed when the search term occurs in its original sentence,
 * its correction, its reason or its essay title (not its date); the header
 * counts the listed entries and an empty list shows "没有找到相关错题".
 */
module ErrorBook {
  import opened JsString

  datatype ErrorEntry = ErrorEntry(id: nat, original: string, correction: string, reason: string, date: string, essay: string)

  /** The entries the page starts with. */
  const InitialEntries: seq<ErrorEntry> := [
    ErrorEntry(1, "蓝蓝的天空", "湛蓝的天空", "用更丰富的词汇表达颜色深度", "2023-12-14", "我的暑假生活"),
    ErrorEntry(2, "那感觉真是太棒了", "那种成就感令人难以忘怀", "避免口语化表达，使用更正式的书面语言", "2023-12-14", "我的暑假生活"),
    ErrorEntry(3, "我们玩得很开心", "我们尽情享受着欢乐的时光", "使用更具体、生动的描述", "2023-12-10", "难忘的一天"),
    ErrorEntry(4, "非常漂亮", "美轮美奂", "使用成语增加文采", "2023-12-05", "家乡的变化")]

  /** The search term the page starts with. */
  const InitialTerm: string := ""

  const NothingFound: string := "没有找到相关错题"

  /** The filter's test: the term occurs in one of four fields. */
  predicate Matches(e: ErrorEntry, term: string) {
    Includes(e.original, term) || Includes(e.correction, term)
    || Includes(e.reason, term) || Includes(e.essay, term)
  }

  /** `errors.filter(...)`: the matching entries, in their order. */
  function Filter(entries: seq<ErrorEntry>, term: string): (r: seq<ErrorEntry>)
    ensures |r| <= |entries|
    ensures forall e :: e in r <==> e in entries && Matches(e, term)
    decreases |entries|
  {
    if |entries| == 0 then []
    else
      var rest := Filter(entries[1..], term);
      assert forall e :: e in entries <==> e == entries[0] || e in entries[1..];
      if Matches(entries[0], term) then [entries[0]] + rest else rest
  }

  /** What the list area shows: the count in the header and, when it is
      zero, the nothing-found message. */
  datatype View = View(count: nat, listed: seq<ErrorEntry>, message: string)

  function Render(entries: seq<ErrorEntry>, term: string): (r: View)
    ensures r.listed == Filter(entries, term) && r.count == |r.listed|
    ensures r.message == NothingFound <==> forall e :: e in entries ==> !Matches(e, term)
    ensures r.message != NothingFound ==> r.message == ""
  {
    var listed := Filter(entries, term);
    if |listed| == 0 then View(0, listed, NothingFound)
    else
      assert listed[0] in listed;
      View(|listed|, listed, "")
  }

  /** Filtering a concatenation filters each part, keeping the order. */
  lemma {:induction false} FilterConcat(a: seq<ErrorEntry>, b: seq<ErrorEntry>, term: string)
    ensures Filter(a + b, term) == Filter(a, term) + Filter(b, term)
    decreases |a|
  {
    if |a| == 0 {
      assert a + b == b;
    } else {
      assert (a + b)[1..] == a[1..] + b;
      FilterConcat(a[1..], b, term);
    }
  }

  /** Searching the search result again changes nothing. */
  lemma {:induction false} FilterIdempotent(entries: seq<ErrorEntry>, term: string)
    ensures Filter(Filter(entries, term), term) == Filter(entries, term)
    decreases |entries|
  {
    if |entries| > 0 {
      FilterIdempotent(entries[1..], term);
      if Matches(entries[0], term) {
        assert ([entries[0]] + Filter(entries[1..], term))[1..] == Filter(entries[1..], term);
      }
    }
  }

  /** The empty term, the initial state, lists every entry. */
  lemma {:induction false} EmptyTermKeepsAll(entries: seq<ErrorEntry>)
    ensures Filter(entries, "") == entries
    decreases |entries|
  {
    if |entries| > 0 {
      EmptyTermKeepsAll(entries[1..]);
      assert Includes(entries[0].original, "");
      assert [entries[0]] + entries[1..] == entries;
    }
  }

  /** On opening, all four entries are listed and no message shows. */
  lemma InitialView()
    ensures Render(InitialEntries, InitialTerm) == View(4, InitialEntries, "")
  {
    EmptyTermKeepsAll(InitialEntries);
  }

  /** A term found inside a longer term is found wherever the longer one is. */
  lemma IncludesTransitive(s: string, t: string, u: string)
    requires Includes(s, t) && Includes(t, u)
    ensures Includes(s, u)
  {
    var i :| OccursAt(s, t, i);
    var j :| OccursAt(t, u, j);
    var w := s[i..i + |t|];
    forall k | 0 <= k < |u| ensures s[i + j..i + j + |u|][k] == u[k] {
      assert u[k] == t[j..j + |u|][k] == w[j + k];
    }
    assert s[i + j..i + j + |u|] == u;
    assert OccursAt(s, u, i + j);
  }

  lemma MatchesNarrow(e: ErrorEntry, t: string, u: string)
    requires Includes(t, u) && Matches(e, t)
    ensures Matches(e, u)
  {
    if Includes(e.original, t) { IncludesTransitive(e.original, t, u); }
    else if Includes(e.correction, t) { IncludesTransitive(e.correction, t, u); }
    else if Includes(e.reason, t) { IncludesTransitive(e.reason, t, u); }
    else { IncludesTransitive(e.essay, t, u); }
  }

  /** Typing more of a term only narrows the list: searching for `t` gives
      the same entries whether or not the list was first searched for a
      part `u` of `t`. */
  lemma {:induction false} Narrowing(entries: seq<ErrorEntry>, t: string, u: string)
    requires Includes(t, u)
    ensures Filter(Filter(entries, u), t) == Filter(entries, t)
    decreases |entries|
  {
    if |entries| > 0 {
      Narrowing(entries[1..], t, u);
      if Matches(entries[0], t) {
        MatchesNarrow(entries[0], t, u);
      }
      if Matches(entries[0], u) {
        assert ([entries[0]] + Filter(entries[1..], u))[1..] == Filter(entries[1..], u);
      }
    }
  }
}
