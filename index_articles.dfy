/** The article indexing command (management/commands/index_sleep_articles.py):
    the PDF files of the articles folder are read, each file's words are cut
    into chunks of at least the chunk size, and the chunks are handed to the
    vector store. Reading the folder and the PDF text are parameters; the
    vector store's upload and statistics are not modelled. */
module IndexArticles {
  import Text

  /** `RAG_CHUNK_SIZE` when the variable is unset. */
  const DefaultChunkSize := 800

  /** `sum(len(w) + 1 for w in ws)`: the length the loop accumulates. */
  function Len(ws: seq<string>): nat {
    if ws == [] then 0 else Len(ws[..|ws| - 1]) + |ws[|ws| - 1]| + 1
  }

  /** No non-empty prefix of `ws` reaches the chunk size. */
  predicate NoCut(ws: seq<string>, size: int) {
    forall k :: 1 <= k <= |ws| ==> Len(ws[..k]) < size
  }

  /** The first prefix length, from `k` on, whose accumulated length reaches the size. */
  function CutFrom(ws: seq<string>, size: int, k: nat): (r: Cut)
    requires 1 <= k
    ensures r.At? ==> k <= r.n <= |ws| && Len(ws[..r.n]) >= size
    ensures r.At? ==> forall j :: k <= j < r.n ==> Len(ws[..j]) < size
    ensures r.Beyond? ==> forall j :: k <= j <= |ws| ==> Len(ws[..j]) < size
    decreases |ws| + 1 - k
  {
    if k > |ws| then Beyond
    else if Len(ws[..k]) >= size then At(k)
    else CutFrom(ws, size, k + 1)
  }

  /** Where a group ends: at a prefix length, or beyond the last word. */
  datatype Cut = At(n: nat) | Beyond

  /** The word groups of the chunks of one file, in order. */
  function Groups(ws: seq<string>, size: int): seq<seq<string>>
    decreases |ws|
  {
    if ws == [] then []
    else match CutFrom(ws, size, 1)
      case At(k) => [ws[..k]] + Groups(ws[k..], size)
      case Beyond => [ws]
  }

  /** `[w for g in gs for w in g]`. */
  function Flatten(gs: seq<seq<string>>): seq<string> {
    if gs == [] then [] else gs[0] + Flatten(gs[1..])
  }

  /** One entry of the uploaded list. */
  datatype Chunk = Chunk(id: string, text: string, source: string, chunkIndex: nat)

  /** `f"{fname}_{chunk_index}"` with the index's decimal digits. */
  function ChunkOf(fname: string, index: nat, group: seq<string>): (c: Chunk)
    ensures c.id == fname + "_" + Text.NatToString(index) && c.source == fname && c.chunkIndex == index
    ensures c.text == Text.Join(" ", group)
  {
    Chunk(fname + "_" + Text.NatToString(index), Text.Join(" ", group), fname, index)
  }

  /** The chunks of one file: its groups numbered from 0. */
  function FileChunks(fname: string, ws: seq<string>, size: int): (r: seq<Chunk>)
    ensures |r| == |Groups(ws, size)|
    ensures forall j :: 0 <= j < |r| ==> r[j] == ChunkOf(fname, j, Groups(ws, size)[j])
  {
    var gs := Groups(ws, size);
    seq(|gs|, j requires 0 <= j < |gs| => ChunkOf(fname, j, gs[j]))
  }

  // ---------------------------------------------------------------------------
  // Properties of the grouping

  lemma LenAppend(ws: seq<string>, w: string)
    ensures Len(ws + [w]) == Len(ws) + |w| + 1
  {
    assert (ws + [w])[..|ws|] == ws;
  }

  /** Prefixes of a word list that no prefix of which reaches the size are skipped by the search. */
  lemma {:induction false} CutSkipsShortPrefix(cur: seq<string>, rest: seq<string>, size: int, k: nat)
    requires NoCut(cur, size)
    requires 1 <= k <= |cur| + 1
    ensures CutFrom(cur + rest, size, k) == CutFrom(cur + rest, size, |cur| + 1)
    decreases |cur| + 1 - k
  {
    if k <= |cur| {
      assert (cur + rest)[..k] == cur[..k];
      CutSkipsShortPrefix(cur, rest, size, k + 1);
    }
  }

  /** Appending a word to a group that has not reached the size either closes the
      group, when the size is reached, or keeps it open. */
  lemma GroupsStep(cur: seq<string>, w: string, rest: seq<string>, size: int)
    requires NoCut(cur, size)
    ensures Len(cur + [w]) >= size ==> Groups(cur + ([w] + rest), size) == [cur + [w]] + Groups(rest, size)
    ensures Len(cur + [w]) < size ==> NoCut(cur + [w], size)
  {
    var c := cur + [w];
    assert cur + ([w] + rest) == c + rest;
    if Len(c) >= size {
      CutSkipsShortPrefix(cur, [w] + rest, size, 1);
      assert (c + rest)[..|c|] == c;
      assert (c + rest)[|c|..] == rest;
    } else {
      forall k | 1 <= k <= |c| ensures Len(c[..k]) < size {
        if k <= |cur| {
          assert c[..k] == cur[..k];
        } else {
          assert c[..k] == c;
        }
      }
    }
  }

  /** A group still open at the end of the file becomes the last chunk. */
  lemma GroupsOfOpen(cur: seq<string>, size: int)
    requires NoCut(cur, size)
    ensures Groups(cur, size) == if cur == [] then [] else [cur]
  {
    if cur != [] {
      CutSkipsShortPrefix(cur, [], size, 1);
      assert cur + [] == cur;
    }
  }

  lemma {:induction false} FlattenAppend(a: seq<seq<string>>, b: seq<seq<string>>)
    ensures Flatten(a + b) == Flatten(a) + Flatten(b)
  {
    if a == [] {
      assert a + b == b;
    } else {
      assert (a + b)[0] == a[0];
      assert (a + b)[1..] == a[1..] + b;
      FlattenAppend(a[1..], b);
    }
  }

  /** The chunks partition the file's words: concatenated in order they give the
      words back, none is empty, every chunk but the last reaches the size, and
      in every chunk no shorter prefix does. */
  lemma GroupsPartitionWords(ws: seq<string>, size: int)
    ensures Flatten(Groups(ws, size)) == ws
    ensures forall i :: 0 <= i < |Groups(ws, size)| ==> Groups(ws, size)[i] != []
    ensures forall i :: 0 <= i < |Groups(ws, size)| - 1 ==> Len(Groups(ws, size)[i]) >= size
    ensures forall i :: 0 <= i < |Groups(ws, size)| ==> NoCut(Groups(ws, size)[i][..|Groups(ws, size)[i]| - 1], size)
  {
    GroupsFlatten(ws, size);
    GroupsShape(ws, size);
  }

  lemma {:induction false} GroupsFlatten(ws: seq<string>, size: int)
    ensures Flatten(Groups(ws, size)) == ws
    decreases |ws|
  {
    if ws != [] {
      match CutFrom(ws, size, 1)
      case At(k) =>
        GroupsFlatten(ws[k..], size);
        var gs := Groups(ws, size);
        assert gs == [ws[..k]] + Groups(ws[k..], size);
        assert gs[1..] == Groups(ws[k..], size);
        assert ws[..k] + ws[k..] == ws;
      case Beyond =>
        assert Groups(ws, size) == [ws];
        assert Flatten([ws]) == ws + Flatten([]);
    }
  }

  /** No cut point before the end of a group's words. */
  lemma ShortPrefixes(ws: seq<string>, k: nat, size: int)
    requires 1 <= k <= |ws|
    requires forall j :: 1 <= j < k ==> Len(ws[..j]) < size
    ensures NoCut(ws[..k][..k - 1], size)
  {
    var p := ws[..k][..k - 1];
    forall j | 1 <= j <= |p| ensures Len(p[..j]) < size {
      assert p[..j] == ws[..j];
    }
  }

  /** The shape of a list of chunks' word groups: none is empty, all but the last
      reach the size, and none has a shorter prefix that does. */
  predicate WellGrouped(gs: seq<seq<string>>, size: int) {
    (forall i :: 0 <= i < |gs| ==> gs[i] != []) &&
    (forall i :: 0 <= i < |gs| - 1 ==> Len(gs[i]) >= size) &&
    (forall i :: 0 <= i < |gs| ==> NoCut(gs[i][..|gs[i]| - 1], size))
  }

  lemma ConsWellGrouped(g: seq<string>, gs: seq<seq<string>>, size: int)
    requires g != [] && Len(g) >= size && NoCut(g[..|g| - 1], size)
    requires WellGrouped(gs, size)
    ensures WellGrouped([g] + gs, size)
  {
    var all := [g] + gs;
    forall i | 0 <= i < |all| ensures all[i] != [] && NoCut(all[i][..|all[i]| - 1], size) {
      if i > 0 {
        assert all[i] == gs[i - 1];
      }
    }
    forall i | 0 <= i < |all| - 1 ensures Len(all[i]) >= size {
      if i > 0 {
        assert all[i] == gs[i - 1];
      }
    }
  }

  lemma {:induction false} GroupsShape(ws: seq<string>, size: int)
    ensures WellGrouped(Groups(ws, size), size)
    decreases |ws|
  {
    if ws != [] {
      match CutFrom(ws, size, 1)
      case At(k) =>
        GroupsShape(ws[k..], size);
        assert Groups(ws, size) == [ws[..k]] + Groups(ws[k..], size);
        ShortPrefixes(ws, k, size);
        ConsWellGrouped(ws[..k], Groups(ws[k..], size), size);
      case Beyond =>
        assert Groups(ws, size) == [ws];
        assert ws[..|ws|] == ws;
        ShortPrefixes(ws, |ws|, size);
    }
  }

  /** The words a file contributes, when it has no words, give no chunk. */
  lemma NoWordsNoChunks(fname: string, size: int)
    ensures FileChunks(fname, [], size) == []
  {
  }

  // ---------------------------------------------------------------------------
  // The loops

  /** The chunks so far are the groups so far, numbered from 0. */
  predicate Numbered(chunks: seq<Chunk>, fname: string, done: seq<seq<string>>) {
    |chunks| == |done| && forall j :: 0 <= j < |chunks| ==> chunks[j] == ChunkOf(fname, j, done[j])
  }

  lemma NumberedAppend(chunks: seq<Chunk>, fname: string, done: seq<seq<string>>, g: seq<string>)
    requires Numbered(chunks, fname, done)
    ensures Numbered(chunks + [ChunkOf(fname, |done|, g)], fname, done + [g])
  {
  }

  /** One turn of the word loop keeps the pending groups in step with `Groups`. */
  lemma AdvanceGroups(words: seq<string>, size: int, done: seq<seq<string>>, cur: seq<string>, i: nat)
    requires i < |words| && NoCut(cur, size)
    requires Groups(words, size) == done + Groups(cur + words[i..], size)
    ensures Len(cur + [words[i]]) >= size ==>
      Groups(words, size) == (done + [cur + [words[i]]]) + Groups([] + words[i + 1..], size)
    ensures Len(cur + [words[i]]) < size ==>
      NoCut(cur + [words[i]], size) && Groups(words, size) == done + Groups((cur + [words[i]]) + words[i + 1..], size)
  {
    var w := words[i];
    var rest := words[i + 1..];
    assert cur + words[i..] == cur + ([w] + rest);
    GroupsStep(cur, w, rest, size);
    if Len(cur + [w]) >= size {
      assert [] + rest == rest;
      assert (done + [cur + [w]]) + Groups(rest, size) == done + ([cur + [w]] + Groups(rest, size));
    } else {
      assert cur + ([w] + rest) == (cur + [w]) + rest;
    }
  }

  /** After the last word the pending group, if any, is the last one. */
  lemma FinishGroups(words: seq<string>, size: int, done: seq<seq<string>>, cur: seq<string>)
    requires NoCut(cur, size)
    requires Groups(words, size) == done + Groups(cur + words[|words|..], size)
    ensures Groups(words, size) == done + (if cur == [] then [] else [cur])
  {
    assert cur + words[|words|..] == cur;
    GroupsOfOpen(cur, size);
  }

  /** Lines 32-49: the word loop of one file. */
  method ChunkFile(fname: string, words: seq<string>, size: int) returns (chunks: seq<Chunk>)
    ensures chunks == FileChunks(fname, words, size)
  {
    chunks := [];
    var cur: seq<string> := [];
    var curLen := 0;
    var chunkIndex := 0;
    ghost var done: seq<seq<string>> := [];
    assert cur + words[0..] == words;
    for i := 0 to |words|
      invariant Groups(words, size) == done + Groups(cur + words[i..], size)
      invariant NoCut(cur, size) && curLen == Len(cur)
      invariant chunkIndex == |done|
      invariant Numbered(chunks, fname, done)
    {
      var w := words[i];
      AdvanceGroups(words, size, done, cur, i);
      LenAppend(cur, w);
      cur := cur + [w];
      curLen := curLen + |w| + 1;
      if curLen >= size {
        NumberedAppend(chunks, fname, done, cur);
        chunks := chunks + [ChunkOf(fname, chunkIndex, cur)];
        done := done + [cur];
        chunkIndex := chunkIndex + 1;
        cur := [];
        curLen := 0;
      }
    }
    FinishGroups(words, size, done, cur);
    if cur != [] {
      NumberedAppend(chunks, fname, done, cur);
      chunks := chunks + [ChunkOf(fname, chunkIndex, cur)];
      done := done + [cur];
    }
  }

  /** `f.lower().endswith(".pdf")`. */
  predicate IsPdf(fname: string) {
    Text.EndsWith(Text.Lower(fname), ".pdf")
  }

  function PdfFiles(listing: seq<string>): (r: seq<string>)
    ensures forall f :: f in r <==> f in listing && IsPdf(f)
  {
    Text.Filter(listing, IsPdf)
  }

  /** The chunks of the files in order; `textOf` gives a file's text, its pages joined. */
  function AllChunks(files: seq<string>, textOf: string -> string, size: int): seq<Chunk> {
    if files == [] then []
    else AllChunks(files[..|files| - 1], textOf, size) + FileChunks(files[|files| - 1], Text.Words(textOf(files[|files| - 1])), size)
  }

  /** Why the command stopped, or the chunks it uploads. */
  datatype IndexOutcome = FolderMissing | NoPdfFiles | Indexed(chunks: seq<Chunk>)

  function HandleSpec(folderExists: bool, listing: seq<string>, textOf: string -> string, size: int): IndexOutcome {
    if !folderExists then FolderMissing
    else if PdfFiles(listing) == [] then NoPdfFiles
    else Indexed(AllChunks(PdfFiles(listing), textOf, size))
  }

  /** `Command.handle` up to the upload. */
  method Handle(folderExists: bool, listing: seq<string>, textOf: string -> string, size: int) returns (r: IndexOutcome)
    ensures r == HandleSpec(folderExists, listing, textOf, size)
  {
    if !folderExists {
      return FolderMissing;
    }
    var files := PdfFiles(listing);
    if files == [] {
      return NoPdfFiles;
    }
    var chunks: seq<Chunk> := [];
    for i := 0 to |files|
      invariant chunks == AllChunks(files[..i], textOf, size)
    {
      var more := ChunkFile(files[i], Text.Words(textOf(files[i])), size);
      AllChunksStep(files, i, textOf, size);
      chunks := chunks + more;
    }
    assert files[..|files|] == files;
    r := Indexed(chunks);
  }

  /** One more file appends its chunks. */
  lemma AllChunksStep(files: seq<string>, i: int, textOf: string -> string, size: int)
    requires 0 <= i < |files|
    ensures AllChunks(files[..i + 1], textOf, size) ==
      AllChunks(files[..i], textOf, size) + FileChunks(files[i], Text.Words(textOf(files[i])), size)
  {
    assert files[..i + 1][..i] == files[..i];
  }

  /** Only PDF files are indexed, the early returns happen exactly when the folder
      is missing or holds no PDF file, and every chunk names a PDF of the listing
      as its source. */
  lemma IndexesOnlyPdfFiles(folderExists: bool, listing: seq<string>, textOf: string -> string, size: int)
    ensures HandleSpec(folderExists, listing, textOf, size) == FolderMissing <==> !folderExists
    ensures HandleSpec(folderExists, listing, textOf, size) == NoPdfFiles <==>
      folderExists && forall f :: f in listing ==> !IsPdf(f)
    ensures HandleSpec(folderExists, listing, textOf, size).Indexed? ==>
      forall c :: c in HandleSpec(folderExists, listing, textOf, size).chunks ==> c.source in listing && IsPdf(c.source)
  {
    var files := PdfFiles(listing);
    if files != [] {
      assert files[0] in files;
    }
    AllChunksNameTheirFile(files, textOf, size);
  }

  lemma {:induction false} AllChunksNameTheirFile(files: seq<string>, textOf: string -> string, size: int)
    ensures forall c :: c in AllChunks(files, textOf, size) ==> c.source in files
  {
    if files != [] {
      var init := files[..|files| - 1];
      AllChunksNameTheirFile(init, textOf, size);
      var last := files[|files| - 1];
      forall c | c in AllChunks(files, textOf, size) ensures c.source in files {
        if c in FileChunks(last, Text.Words(textOf(last)), size) {
          var j :| 0 <= j < |FileChunks(last, Text.Words(textOf(last)), size)| && FileChunks(last, Text.Words(textOf(last)), size)[j] == c;
        } else {
          assert c in AllChunks(init, textOf, size);
          assert c.source in init;
        }
      }
    }
  }
}
