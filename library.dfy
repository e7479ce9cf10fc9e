/**
 * The simple course library: per-course lists of documents kept in memory and mirrored to one
 * JSON record per course on disk, with a keyword-overlap search. The backend and the RAG
 * workflow carry the same class; they differ only in the default number of search results.
 */
module CourseLibrary {
  import opened Results
  import opened Text

  /** One stored document: its per-course id, title, content, author and document type. */
  datatype Doc = Doc(id: int, title: string, content: string, author: string, kind: string)

  /** A course's record on disk; `Unreadable` stands for a file that `json.load` cannot turn into documents. */
  datatype Record = Record(docs: seq<Doc>) | Unreadable

  /** Raised by `json.load` on an unreadable record. */
  datatype LoadError = UnreadableRecord(course: string)

  /** The library's whole state: the in-memory dictionary and the directory of saved records. */
  datatype Store = Store(memory: map<string, seq<Doc>>, disk: map<string, Record>)

  /** Default `max_results` of `search_documents` in the backend and in the RAG workflow. */
  const BackendTopK: int := 5
  const RagTopK: int := 3

  /** Title, author and type given to the chunks of an uploaded file. */
  const UploadedAuthor := "Uploaded Content"
  const UploadedKind := "uploaded_file"
  const DefaultTitle := "Uploaded Document"

  /** The in-memory document list of a course; an unknown course has none. */
  function Collection(st: Store, course: string): seq<Doc> {
    if course in st.memory then st.memory[course] else []
  }

  /** The ids that `add_course_document` hands out: 1, 2, 3, ... in insertion order. */
  predicate IdsSequential(docs: seq<Doc>) {
    forall i :: 0 <= i < |docs| ==> docs[i].id == i + 1
  }

  // ---------------------------------------------------------------- adding documents

  /**
   * `add_course_document`: appends a document whose id is one more than the course's current
   * count, then saves the course's whole list as its record on disk.
   */
  function AddDoc(st: Store, course: string, title: string, content: string, author: string, kind: string): (res: (Store, Doc))
    ensures var (st', d) := res;
      && d == Doc(|Collection(st, course)| + 1, title, content, author, kind)
      && Collection(st', course) == Collection(st, course) + [d]
      && st'.disk == st.disk[course := Record(Collection(st', course))]
      && forall c :: c != course ==> Collection(st', c) == Collection(st, c)
  {
    var d := Doc(|Collection(st, course)| + 1, title, content, author, kind);
    var docs := Collection(st, course) + [d];
    (Store(st.memory[course := docs], st.disk[course := Record(docs)]), d)
  }

  /** Adding keeps the ids of a course that was built by adding alone equal to 1..n. */
  lemma AddDocKeepsIds(st: Store, course: string, title: string, content: string, author: string, kind: string)
    requires IdsSequential(Collection(st, course))
    ensures IdsSequential(Collection(AddDoc(st, course, title, content, author, kind).0, course))
  {
    var docs := Collection(AddDoc(st, course, title, content, author, kind).0, course);
    assert forall i :: 0 <= i < |docs| - 1 ==> docs[i] == Collection(st, course)[i];
  }

  /** The title of the chunk at index `i`: the upload's title and its 1-based part number. */
  function ChunkTitle(title: string, i: nat): string {
    title + " - Part " + NatToString(i + 1)
  }

  /** `add_document_chunks`: every chunk in order becomes one uploaded-file document. */
  function AddChunks(st: Store, course: string, chunks: seq<string>, title: string): Store
    decreases |chunks|
  {
    if chunks == [] then st
    else
      var n := |chunks| - 1;
      AddDoc(AddChunks(st, course, chunks[..n], title), course, ChunkTitle(title, n), chunks[n], UploadedAuthor, UploadedKind).0
  }

  /** The document an uploaded chunk becomes when `before` documents precede it in the course. */
  function ChunkDoc(before: nat, title: string, i: nat, chunk: string): Doc {
    Doc(before + i + 1, ChunkTitle(title, i), chunk, UploadedAuthor, UploadedKind)
  }

  /** The documents the chunks of one upload become, when `before` documents precede them. */
  function ChunkDocs(before: nat, title: string, chunks: seq<string>): (ds: seq<Doc>)
    ensures |ds| == |chunks| && forall i :: 0 <= i < |chunks| ==> ds[i] == ChunkDoc(before, title, i, chunks[i])
  {
    seq(|chunks|, i requires 0 <= i < |chunks| => ChunkDoc(before, title, i, chunks[i]))
  }

  /**
   * Adding chunks appends exactly one document per chunk, in order, with consecutive ids, the
   * chunk as content and "Part 1", "Part 2", ... titles.
   */
  lemma AddChunksAppends(st: Store, course: string, chunks: seq<string>, title: string)
    ensures var after := Collection(AddChunks(st, course, chunks, title), course);
      var before := Collection(st, course);
      && |after| == |before| + |chunks|
      && after[..|before|] == before
      && forall i :: 0 <= i < |chunks| ==> after[|before| + i] == ChunkDoc(|before|, title, i, chunks[i])
  {
    var before := Collection(st, course);
    var after := Collection(AddChunks(st, course, chunks, title), course);
    AddChunksDocs(st, course, chunks, title);
    assert after[..|before|] == before;
    forall i | 0 <= i < |chunks| ensures after[|before| + i] == ChunkDoc(|before|, title, i, chunks[i]) {
      assert after[|before| + i] == ChunkDocs(|before|, title, chunks)[i];
    }
  }

  /** The course's list after adding chunks: the list before, then one document per chunk. */
  lemma {:induction false} AddChunksDocs(st: Store, course: string, chunks: seq<string>, title: string)
    ensures Collection(AddChunks(st, course, chunks, title), course)
      == Collection(st, course) + ChunkDocs(|Collection(st, course)|, title, chunks)
    decreases |chunks|
  {
    var before := Collection(st, course);
    if chunks == [] {
      assert ChunkDocs(|before|, title, chunks) == [];
    } else {
      var n := |chunks| - 1;
      var mid := Collection(AddChunks(st, course, chunks[..n], title), course);
      var last := ChunkDoc(|before|, title, n, chunks[n]);
      assert mid == before + ChunkDocs(|before|, title, chunks[..n]) by {
        AddChunksDocs(st, course, chunks[..n], title);
      }
      assert Collection(AddChunks(st, course, chunks, title), course) == mid + [last] by {
        AddChunksLast(st, course, chunks, title);
      }
      ChunkDocsSnoc(|before|, title, chunks);
    }
  }

  lemma ChunkDocsSnoc(before: nat, title: string, chunks: seq<string>)
    requires chunks != []
    ensures var n := |chunks| - 1;
      ChunkDocs(before, title, chunks) == ChunkDocs(before, title, chunks[..n]) + [ChunkDoc(before, title, n, chunks[n])]
  {
  }

  /** The last chunk is added after the others, with the id and part number that follow theirs. */
  lemma AddChunksLast(st: Store, course: string, chunks: seq<string>, title: string)
    requires chunks != []
    requires |Collection(AddChunks(st, course, chunks[..|chunks| - 1], title), course)| == |Collection(st, course)| + |chunks| - 1
    ensures var n := |chunks| - 1;
      Collection(AddChunks(st, course, chunks, title), course)
        == Collection(AddChunks(st, course, chunks[..n], title), course) + [ChunkDoc(|Collection(st, course)|, title, n, chunks[n])]
  {
  }

  /**
   * Adding chunks touches no other course, in memory or on disk; the course's record on disk is
   * its new list whenever a chunk was added, and no chunks change nothing.
   */
  lemma {:induction false} AddChunksFrame(st: Store, course: string, chunks: seq<string>, title: string)
    ensures var st' := AddChunks(st, course, chunks, title);
      && (forall c :: c != course ==> Collection(st', c) == Collection(st, c))
      && (forall c :: c != course ==> (c in st'.disk <==> c in st.disk) && (c in st.disk ==> st'.disk[c] == st.disk[c]))
      && (chunks != [] ==> course in st'.disk && st'.disk[course] == Record(Collection(st', course)))
      && (chunks == [] ==> st' == st)
    decreases |chunks|
  {
    if chunks != [] {
      AddChunksFrame(st, course, chunks[..|chunks| - 1], title);
    }
  }

  /** Two chunks of one upload never share a title. */
  lemma ChunkTitlesDistinct(title: string, i: nat, j: nat)
    requires i != j
    ensures ChunkTitle(title, i) != ChunkTitle(title, j)
  {
    var p := title + " - Part ";
    if ChunkTitle(title, i) == ChunkTitle(title, j) {
      assert NatToString(i + 1) == ChunkTitle(title, i)[|p|..];
      assert NatToString(j + 1) == ChunkTitle(title, j)[|p|..];
      NatToStringInjective(i + 1, j + 1);
    }
  }

  // ---------------------------------------------------------------- loading

  /**
   * `load_course_library`: a record on disk replaces the course's in-memory list and is
   * returned; an unreadable record raises; without a record the in-memory list (or none) is
   * returned and nothing changes.
   */
  function Load(st: Store, course: string): (res: (Result<seq<Doc>, LoadError>, Store))
    ensures var (r, st') := res;
      && (course !in st.disk ==> r == Ok(Collection(st, course)) && st' == st)
      && (course in st.disk && st.disk[course].Unreadable? ==> r == Err(UnreadableRecord(course)) && st' == st)
      && (course in st.disk && st.disk[course].Record? ==>
            r == Ok(st.disk[course].docs) && st' == Store(st.memory[course := st.disk[course].docs], st.disk))
  {
    if course !in st.disk then (Ok(Collection(st, course)), st)
    else match st.disk[course]
      case Unreadable => (Err(UnreadableRecord(course)), st)
      case Record(docs) => (Ok(docs), Store(st.memory[course := docs], st.disk))
  }

  /** Every record this process saved mirrors the in-memory list of its course. */
  predicate Mirrored(st: Store) {
    forall c :: c in st.disk && c in st.memory ==> st.disk[c] == Record(st.memory[c])
  }

  /** Adding documents keeps every saved record equal to its course's list in memory. */
  lemma AddDocMirrored(st: Store, course: string, title: string, content: string, author: string, kind: string)
    requires Mirrored(st)
    ensures Mirrored(AddDoc(st, course, title, content, author, kind).0)
  {
  }

  /** When records mirror memory, loading a course returns its in-memory list and changes nothing. */
  lemma LoadMirrored(st: Store, course: string)
    requires Mirrored(st) && course in st.memory
    ensures Load(st, course) == (Ok(Collection(st, course)), st)
  {
    assert course in st.disk ==> st.memory[course := st.disk[course].docs] == st.memory;
  }

  /** A document added in this process is returned by the next load of its course. */
  lemma LoadAfterAdd(st: Store, course: string, title: string, content: string, author: string, kind: string)
    ensures var (st', d) := AddDoc(st, course, title, content, author, kind);
      Load(st', course) == (Ok(Collection(st, course) + [d]), st')
  {
    var (st', d) := AddDoc(st, course, title, content, author, kind);
    assert st'.memory[course := st'.disk[course].docs] == st'.memory;
  }

  // ---------------------------------------------------------------- scoring

  /** The distinct words of `text.lower()`, as `set(text.lower().split())` builds them. */
  function WordSet(text: string): set<string> {
    set w | w in Words(Lower(text))
  }

  /** The text a document is matched against: its title, one space, its content. */
  function DocText(d: Doc): string {
    d.title + " " + d.content
  }

  /** The overlap score: how many distinct query words the document's text contains. */
  function Overlap(query: string, d: Doc): nat {
    |WordSet(query) * WordSet(DocText(d))|
  }

  /** The document's words are its title's words followed by its content's words. */
  lemma DocWords(d: Doc)
    ensures Words(Lower(DocText(d))) == Words(Lower(d.title)) + Words(Lower(d.content))
  {
    LowerConcat(d.title + " ", d.content);
    LowerConcat(d.title, " ");
    assert Lower(" ") == [' '];
    assert Lower(DocText(d)) == Lower(d.title) + [' '] + Lower(d.content);
    assert IsSpace(' ');
    WordsAcrossSpace(Lower(d.title), ' ', Lower(d.content));
  }

  /** A document scores exactly when some query word occurs among its title or content words. */
  lemma OverlapPositive(query: string, d: Doc)
    ensures Overlap(query, d) > 0 <==>
      exists w :: w in Words(Lower(query)) && (w in Words(Lower(d.title)) || w in Words(Lower(d.content)))
  {
    DocWords(d);
    var both := WordSet(query) * WordSet(DocText(d));
    if Overlap(query, d) > 0 {
      var w :| w in both;
      assert w in Words(Lower(query));
    } else {
      forall w | w in Words(Lower(query)) ensures !(w in Words(Lower(d.title)) || w in Words(Lower(d.content))) {
        assert w in WordSet(query);
        assert w !in both;
        assert w !in WordSet(DocText(d));
      }
    }
  }

  /** A scored entry: its overlap score, its position in the loaded list, and the document. */
  datatype Scored = Scored(score: nat, pos: nat, doc: Doc)

  /** The entries of `scored_docs` before sorting describe, in order, the documents that score. */
  predicate Describes(docs: seq<Doc>, score: Doc -> nat, xs: seq<Scored>) {
    && (forall i :: 0 <= i < |xs| ==>
          xs[i].pos < |docs| && xs[i].doc == docs[xs[i].pos] && xs[i].score == score(xs[i].doc) && xs[i].score > 0)
    && (forall i, j :: 0 <= i < j < |xs| ==> xs[i].pos < xs[j].pos)
  }

  /** The `scored_docs` list: for each document in order, its entry when its overlap is positive. */
  function ScoreAll(docs: seq<Doc>, score: Doc -> nat): (xs: seq<Scored>)
    ensures Describes(docs, score, xs)
    ensures forall i :: 0 <= i < |xs| ==> xs[i].pos < |docs|
    decreases |docs|
  {
    if docs == [] then []
    else
      var n := |docs| - 1;
      var init := ScoreAll(docs[..n], score);
      var s := score(docs[n]);
      init + (if s > 0 then [Scored(s, n, docs[n])] else [])
  }

  /** Every document that shares a word with the query has an entry. */
  lemma {:induction false} ScoreAllComplete(docs: seq<Doc>, score: Doc -> nat, p: nat)
    requires p < |docs| && score(docs[p]) > 0
    ensures exists i :: 0 <= i < |ScoreAll(docs, score)| && ScoreAll(docs, score)[i].pos == p
    decreases |docs|
  {
    var n := |docs| - 1;
    var xs := ScoreAll(docs, score);
    if p < n {
      ScoreAllComplete(docs[..n], score, p);
      var i :| 0 <= i < |ScoreAll(docs[..n], score)| && ScoreAll(docs[..n], score)[i].pos == p;
      assert xs[i] == ScoreAll(docs[..n], score)[i];
    } else {
      assert xs[|xs| - 1].pos == p;
    }
  }

  // ---------------------------------------------------------------- stable sort by score, descending

  /**
   * The order `sort(key=score, reverse=True)` produces: higher score first, and since Python's
   * sort is stable, equal scores keep the order of the loaded list.
   */
  predicate Precedes(x: Scored, y: Scored) {
    x.score > y.score || (x.score == y.score && x.pos < y.pos)
  }

  predicate Ranked(xs: seq<Scored>) {
    forall i, j :: 0 <= i < j < |xs| ==> Precedes(xs[i], xs[j])
  }

  predicate DistinctPos(xs: seq<Scored>) {
    forall i, j :: 0 <= i < j < |xs| ==> xs[i].pos != xs[j].pos
  }

  /** Inserts an entry before the first one it precedes. */
  function Insert(x: Scored, r: seq<Scored>): (r': seq<Scored>)
    ensures multiset(r') == multiset(r) + multiset{x} && |r'| == |r| + 1
    decreases |r|
  {
    if r == [] || Precedes(x, r[0]) then [x] + r
    else
      assert r == [r[0]] + r[1..];
      [r[0]] + Insert(x, r[1..])
  }

  /** The stable descending sort, by insertion. */
  function Rank(xs: seq<Scored>): (r: seq<Scored>)
    ensures multiset(r) == multiset(xs) && |r| == |xs|
    decreases |xs|
  {
    if xs == [] then []
    else
      assert xs == xs[..|xs| - 1] + [xs[|xs| - 1]];
      Insert(xs[|xs| - 1], Rank(xs[..|xs| - 1]))
  }

  lemma {:induction false} InsertRanked(x: Scored, r: seq<Scored>)
    requires Ranked(r)
    requires forall i :: 0 <= i < |r| ==> r[i].pos != x.pos
    ensures Ranked(Insert(x, r))
    decreases |r|
  {
    if r != [] && !Precedes(x, r[0]) {
      InsertRanked(x, r[1..]);
      var t := Insert(x, r[1..]);
      forall j | 0 < j < |t| + 1 ensures Precedes(r[0], ([r[0]] + t)[j]) {
        var y := t[j - 1];
        assert y in multiset(t);
        assert y in multiset(r[1..]) + multiset{x};
        if y != x {
          assert y in multiset(r[1..]);
          var k :| 0 <= k < |r[1..]| && r[1..][k] == y;
          assert Precedes(r[0], r[k + 1]);
        }
      }
    }
  }

  /** Sorting an entry list with distinct positions yields the ranked order. */
  lemma {:induction false} RankRanked(xs: seq<Scored>)
    requires DistinctPos(xs)
    ensures Ranked(Rank(xs))
    decreases |xs|
  {
    if xs != [] {
      var n := |xs| - 1;
      var init := xs[..n];
      assert DistinctPos(init) by {
        forall i, j | 0 <= i < j < |init| ensures init[i].pos != init[j].pos {
          assert init[i] == xs[i] && init[j] == xs[j];
        }
      }
      RankRanked(init);
      assert forall k :: 0 <= k < |init| ==> init[k].pos != xs[n].pos by {
        forall k | 0 <= k < |init| ensures init[k].pos != xs[n].pos {
          assert init[k] == xs[k];
        }
      }
      RankAvoids(init, xs[n]);
      assert Rank(xs) == Insert(xs[n], Rank(init));
      InsertRanked(xs[n], Rank(init));
    }
  }

  /** Sorting brings in no new position. */
  lemma RankAvoids(xs: seq<Scored>, x: Scored)
    requires forall k :: 0 <= k < |xs| ==> xs[k].pos != x.pos
    ensures forall i :: 0 <= i < |Rank(xs)| ==> Rank(xs)[i].pos != x.pos
  {
    var r := Rank(xs);
    forall i | 0 <= i < |r| ensures r[i].pos != x.pos {
      assert r[i] in multiset(r);
      assert r[i] in multiset(xs);
      var k :| 0 <= k < |xs| && xs[k] == r[i];
    }
  }

  lemma RankedTail(a: seq<Scored>)
    requires Ranked(a) && a != []
    ensures Ranked(a[1..])
  {
    forall i, j | 0 <= i < j < |a| - 1 ensures Precedes(a[1..][i], a[1..][j]) {
      assert a[1..][i] == a[i + 1] && a[1..][j] == a[j + 1];
    }
  }

  /** A ranked list is determined by its elements: the stable sort has exactly one possible result. */
  lemma {:induction false} RankedUnique(a: seq<Scored>, b: seq<Scored>)
    requires Ranked(a) && Ranked(b) && multiset(a) == multiset(b)
    ensures a == b
    decreases |a|
  {
    if a != [] {
      assert |b| == |multiset(b)| == |a|;
      assert a[0] == b[0] by {
        assert a[0] in multiset(b) && b[0] in multiset(a);
        var i :| 0 <= i < |b| && b[i] == a[0];
        var j :| 0 <= j < |a| && a[j] == b[0];
        if i != 0 && j != 0 {
          assert Precedes(b[0], a[0]) && Precedes(a[0], b[0]);
        }
      }
      assert multiset(a[1..]) == multiset(a) - multiset{a[0]} by {
        assert a == [a[0]] + a[1..];
      }
      assert multiset(b[1..]) == multiset(b) - multiset{b[0]} by {
        assert b == [b[0]] + b[1..];
      }
      RankedTail(a);
      RankedTail(b);
      RankedUnique(a[1..], b[1..]);
    }
  }

  // ---------------------------------------------------------------- search

  /** The ranked entries `search_documents` keeps: `scored_docs[:max_results]` after the sort. */
  function TopHits(docs: seq<Doc>, score: Doc -> nat, maxResults: int): seq<Scored> {
    PyPrefix(Rank(ScoreAll(docs, score)), maxResults)
  }

  function DocsOf(xs: seq<Scored>): (ds: seq<Doc>)
    ensures |ds| == |xs| && forall i :: 0 <= i < |xs| ==> ds[i] == xs[i].doc
  {
    seq(|xs|, i requires 0 <= i < |xs| => xs[i].doc)
  }

  /** The score `search_documents` ranks by: the document's overlap with the query. */
  function ScoreOf(query: string): Doc -> nat {
    d => Overlap(query, d)
  }

  /** The documents `search_documents` returns from a loaded list. */
  function SearchDocs(docs: seq<Doc>, query: string, maxResults: int): seq<Doc> {
    DocsOf(TopHits(docs, ScoreOf(query), maxResults))
  }

  /** `search_documents`: load the course (which may raise or refresh memory), then rank its documents. */
  function Search(st: Store, course: string, query: string, maxResults: int): (Result<seq<Doc>, LoadError>, Store) {
    var (r, st') := Load(st, course);
    match r
    case Err(e) => (Err(e), st')
    case Ok(docs) => (Ok(SearchDocs(docs, query, maxResults)), st')
  }

  lemma ScoreAllDistinct(docs: seq<Doc>, score: Doc -> nat)
    ensures DistinctPos(ScoreAll(docs, score))
  {
  }

  /**
   * The kept entries are distinct documents of the list that share a word with the query, in
   * ranked order: scores never increase, equal scores keep list order, and each entry's score is
   * its overlap.
   */
  lemma TopHitsSound(docs: seq<Doc>, score: Doc -> nat, maxResults: int)
    ensures var top := TopHits(docs, score, maxResults);
      && Ranked(top)
      && (forall i :: 0 <= i < |top| ==>
            top[i].pos < |docs| && top[i].doc == docs[top[i].pos] && top[i].score == score(top[i].doc) && top[i].score > 0)
  {
    var xs := ScoreAll(docs, score);
    var r := Rank(xs);
    RankRanked(xs);
    var top := TopHits(docs, score, maxResults);
    forall i | 0 <= i < |top|
      ensures top[i].pos < |docs| && top[i].doc == docs[top[i].pos] && top[i].score == score(top[i].doc) && top[i].score > 0
    {
      assert top[i] == r[i];
      var k := RankSource(xs, i);
    }
  }

  /** Where a sorted entry came from. */
  lemma RankSource(xs: seq<Scored>, i: nat) returns (k: nat)
    requires i < |Rank(xs)|
    ensures k < |xs| && xs[k] == Rank(xs)[i]
  {
    assert Rank(xs)[i] in multiset(xs) by {
      assert Rank(xs)[i] in multiset(Rank(xs));
    }
    k :| 0 <= k < |xs| && xs[k] == Rank(xs)[i];
  }

  /**
   * The kept entries are the best ones: any scoring document left out means the list was cut
   * short, and it ranks after every kept entry; with `maxResults` at least the number of
   * scoring documents, every one of them is kept.
   */
  lemma TopHitsComplete(docs: seq<Doc>, score: Doc -> nat, maxResults: int, p: nat)
    requires p < |docs| && score(docs[p]) > 0
    requires forall i :: 0 <= i < |TopHits(docs, score, maxResults)| ==> TopHits(docs, score, maxResults)[i].pos != p
    ensures maxResults < |ScoreAll(docs, score)|
    ensures forall i :: 0 <= i < |TopHits(docs, score, maxResults)| ==>
      Precedes(TopHits(docs, score, maxResults)[i], Scored(score(docs[p]), p, docs[p]))
  {
    var xs := ScoreAll(docs, score);
    var r := Rank(xs);
    RankRanked(xs);
    ScoreAllComplete(docs, score, p);
    var k :| 0 <= k < |xs| && xs[k].pos == p;
    var j := RankIndex(xs, k);
    var top := TopHits(docs, score, maxResults);
    assert r[j] == Scored(score(docs[p]), p, docs[p]);
    RankedBefore(r, top, j);
  }

  /** In a ranked list, an entry other than each one of a prefix comes after all of them. */
  lemma RankedBefore(r: seq<Scored>, top: seq<Scored>, j: nat)
    requires Ranked(r) && |top| <= |r| && top == r[..|top|] && j < |r|
    requires forall i :: 0 <= i < |top| ==> top[i].pos != r[j].pos
    ensures |top| <= j && forall i :: 0 <= i < |top| ==> Precedes(top[i], r[j])
  {
    assert forall i :: 0 <= i < |top| ==> top[i] == r[i];
    assert forall i :: 0 <= i < |r| ==> i < |top| ==> r[i].pos != r[j].pos;
  }

  /** Where an entry ends up after sorting. */
  lemma RankIndex(xs: seq<Scored>, k: nat) returns (j: nat)
    requires k < |xs|
    ensures j < |Rank(xs)| && Rank(xs)[j] == xs[k]
  {
    assert xs[k] in multiset(Rank(xs));
    j :| 0 <= j < |Rank(xs)| && Rank(xs)[j] == xs[k];
  }

  /**
   * Every document found is one of the course's documents and shares a word with the query,
   * and the documents come in non-increasing order of overlap.
   */
  lemma SearchDocsSound(docs: seq<Doc>, query: string, maxResults: int)
    ensures var found := SearchDocs(docs, query, maxResults);
      && (forall i :: 0 <= i < |found| ==> found[i] in docs && Overlap(query, found[i]) > 0)
      && (forall i, j :: 0 <= i < j < |found| ==> Overlap(query, found[i]) >= Overlap(query, found[j]))
  {
    var top := TopHits(docs, ScoreOf(query), maxResults);
    TopHitsSound(docs, ScoreOf(query), maxResults);
    var found := SearchDocs(docs, query, maxResults);
    forall i | 0 <= i < |found| ensures found[i] in docs && Overlap(query, found[i]) > 0 {
      assert found[i] == top[i].doc == docs[top[i].pos];
      assert top[i].score == ScoreOf(query)(top[i].doc);
    }
    forall i, j | 0 <= i < j < |found| ensures Overlap(query, found[i]) >= Overlap(query, found[j]) {
      assert Precedes(top[i], top[j]);
      assert top[i].score == ScoreOf(query)(found[i]);
      assert top[j].score == ScoreOf(query)(found[j]);
    }
  }

  /** Never more than `maxResults` documents for a non-negative bound. */
  lemma SearchDocsBound(docs: seq<Doc>, query: string, maxResults: int)
    requires maxResults >= 0
    ensures |SearchDocs(docs, query, maxResults)| <= maxResults
    ensures |SearchDocs(docs, query, maxResults)| <= |docs|
  {
    ScoreAllLength(docs, ScoreOf(query));
  }

  lemma {:induction false} ScoreAllLength(docs: seq<Doc>, score: Doc -> nat)
    ensures |ScoreAll(docs, score)| <= |docs|
    decreases |docs|
  {
    if docs != [] {
      ScoreAllLength(docs[..|docs| - 1], score);
    }
  }

  /** A query with no words in common with any document finds nothing. */
  lemma SearchNothingShared(docs: seq<Doc>, query: string, maxResults: int)
    requires forall i :: 0 <= i < |docs| ==> Overlap(query, docs[i]) == 0
    ensures SearchDocs(docs, query, maxResults) == []
  {
    ScoreAllNone(docs, ScoreOf(query));
  }

  lemma {:induction false} ScoreAllNone(docs: seq<Doc>, score: Doc -> nat)
    requires forall i :: 0 <= i < |docs| ==> score(docs[i]) == 0
    ensures ScoreAll(docs, score) == []
    decreases |docs|
  {
    if docs != [] {
      var n := |docs| - 1;
      assert docs[n] == docs[n];
      ScoreAllNone(docs[..n], score);
    }
  }

  /** The scoring loop of `search_documents`: one entry per document that shares a query word. */
  method ScoreDocuments(docs: seq<Doc>, query: string) returns (scored: seq<Scored>)
    ensures scored == ScoreAll(docs, ScoreOf(query))
  {
    scored := [];
    var i := 0;
    while i < |docs|
      invariant 0 <= i <= |docs|
      invariant scored == ScoreAll(docs[..i], ScoreOf(query))
    {
      assert docs[..i + 1][..i] == docs[..i];
      var overlap := Overlap(query, docs[i]);
      if overlap > 0 {
        scored := scored + [Scored(overlap, i, docs[i])];
      }
      i := i + 1;
    }
    assert docs[..i] == docs;
  }

  // ---------------------------------------------------------------- the class

  /** `SimpleCourseLibrary`: the dictionary of course lists and the directory of saved records. */
  class Library {
    var memory: map<string, seq<Doc>>
    var disk: map<string, Record>

    function View(): Store
      reads this
    {
      Store(memory, disk)
    }

    /** A new library starts with no courses in memory; the records left on disk by earlier runs remain. */
    constructor (savedRecords: map<string, Record>)
      ensures View() == Store(map[], savedRecords)
    {
      memory := map[];
      disk := savedRecords;
    }

    method AddCourseDocument(course: string, title: string, content: string, author: string, kind: string) returns (d: Doc)
      modifies this
      ensures (View(), d) == AddDoc(old(View()), course, title, content, author, kind)
    {
      ghost var before := Collection(View(), course);
      if course !in memory {
        memory := memory[course := []];
      }
      d := Doc(|memory[course]| + 1, title, content, author, kind);
      memory := memory[course := memory[course] + [d]];
      disk := disk[course := Record(memory[course])];
      assert memory == old(memory)[course := before + [d]];
    }

    /** `add_document_chunks`; without a title the chunks are stored under "Uploaded Document". */
    method AddDocumentChunks(course: string, chunks: seq<string>, title: Option<string>)
      modifies this
      ensures View() == AddChunks(old(View()), course, chunks, if title.Some? then title.value else DefaultTitle)
    {
      var title := if title.Some? then title.value else DefaultTitle;
      var i := 0;
      while i < |chunks|
        invariant 0 <= i <= |chunks|
        invariant View() == AddChunks(old(View()), course, chunks[..i], title)
      {
        assert chunks[..i + 1][..i] == chunks[..i];
        var _ := AddCourseDocument(course, ChunkTitle(title, i), chunks[i], UploadedAuthor, UploadedKind);
        i := i + 1;
      }
      assert chunks[..i] == chunks;
    }

    method LoadCourseLibrary(course: string) returns (r: Result<seq<Doc>, LoadError>)
      modifies this
      ensures (r, View()) == Load(old(View()), course)
    {
      if course in disk {
        match disk[course]
        case Unreadable =>
          return Err(UnreadableRecord(course));
        case Record(docs) =>
          memory := memory[course := docs];
      }
      r := Ok(if course in memory then memory[course] else []);
    }

    method SearchDocuments(course: string, query: string, maxResults: int) returns (r: Result<seq<Doc>, LoadError>)
      modifies this
      ensures (r, View()) == Search(old(View()), course, query, maxResults)
    {
      var loaded := LoadCourseLibrary(course);
      if loaded.Err? {
        return Err(loaded.error);
      }
      var scored := ScoreDocuments(loaded.value, query);
      var ranked := Rank(scored);
      r := Ok(DocsOf(PyPrefix(ranked, maxResults)));
    }
  }
}
