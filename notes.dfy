/**
 * The value-level logic of the per-page note store in content.js: the note record, its storage
 * key, label parsing, removal by id, lookup by id, the newest-first display order, the badge
 * text, the relative-time buckets and the record a note is sent to the webhook as.
 */
module Notes {
  import opened Wrappers
  import opened Strings
  import Template
  import Webhook

  /** A note. `id` and `createdAt` come from two separate clock readings and may differ. */
  datatype Note = Note(id: int, content: string, title: string, labels: seq<string>, createdAt: int)

  const StorageKeyPrefix: string := "notes_"

  /** The storage key of a page's notes. */
  function StorageKey(url: string): (key: string)
    ensures |key| == |StorageKeyPrefix| + |url|
    ensures key[..|StorageKeyPrefix|] == StorageKeyPrefix && key[|StorageKeyPrefix|..] == url
  {
    StorageKeyPrefix + url
  }

  /** Different pages never share a note collection. */
  lemma StorageKeyInjective(url1: string, url2: string)
    requires StorageKey(url1) == StorageKey(url2)
    ensures url1 == url2
  {
  }

  /** `result[key] || []`: what loading yields, given the stored entries. */
  function StoredNotes(entries: map<string, seq<Note>>, key: string): (notes: seq<Note>)
    ensures key !in entries ==> notes == []
    ensures key in entries ==> notes == entries[key]
  {
    if key in entries then entries[key] else []
  }

  // ---------------------------------------------------------------------------------------------
  // Labels: `s ? s.split(/[,，]/).map(t => t.trim()).filter(t => t) : []`

  /** An ASCII comma or a full-width comma. */
  predicate IsLabelSeparator(c: char)
  {
    c == ',' || c == '\U{FF0C}'
  }

  predicate LacksSeparator(s: string)
  {
    forall i :: 0 <= i < |s| ==> !IsLabelSeparator(s[i])
  }

  /** `s.split(/[,，]/)`. */
  function SplitLabelPieces(s: string): (pieces: seq<string>)
    ensures |pieces| > 0
    decreases |s|
  {
    if s == [] then [[]]
    else
      var rest := SplitLabelPieces(s[1..]);
      if IsLabelSeparator(s[0]) then [[]] + rest else [[s[0]] + rest[0]] + rest[1..]
  }

  /** `.map(t => t.trim()).filter(t => t)`. */
  function TrimAndDropEmpty(pieces: seq<string>): seq<string>
  {
    if pieces == [] then []
    else
      var t := Trim(pieces[0]);
      (if t == [] then [] else [t]) + TrimAndDropEmpty(pieces[1..])
  }

  /** Trimming and dropping works piece by piece, so the labels keep the order of their pieces. */
  lemma {:induction false} TrimAndDropEmptyAppend(a: seq<string>, b: seq<string>)
    ensures TrimAndDropEmpty(a + b) == TrimAndDropEmpty(a) + TrimAndDropEmpty(b)
    decreases |a|
  {
    if a != [] {
      assert (a + b)[0] == a[0] && (a + b)[1..] == a[1..] + b;
      TrimAndDropEmptyAppend(a[1..], b);
    } else {
      assert a + b == b;
    }
  }

  /** A label results exactly from a piece that trims to it, and never an empty one. */
  lemma {:induction false} TrimAndDropEmptyMembers(pieces: seq<string>, l: string)
    ensures l in TrimAndDropEmpty(pieces) <==> l != [] && exists i :: 0 <= i < |pieces| && Trim(pieces[i]) == l
    decreases |pieces|
  {
    if pieces != [] {
      TrimAndDropEmptyMembers(pieces[1..], l);
      if l != [] && (exists i :: 0 <= i < |pieces| && Trim(pieces[i]) == l) {
        var i :| 0 <= i < |pieces| && Trim(pieces[i]) == l;
        if i > 0 {
          assert Trim(pieces[1..][i - 1]) == l;
        }
      }
      if exists i :: 0 <= i < |pieces[1..]| && Trim(pieces[1..][i]) == l {
        var i :| 0 <= i < |pieces[1..]| && Trim(pieces[1..][i]) == l;
        assert Trim(pieces[i + 1]) == l;
      }
    }
  }

  /** The labels of a new note, from the trimmed label input. */
  function ParseLabels(labelsStr: string): (labels: seq<string>)
    ensures labelsStr == [] ==> labels == []
  {
    if labelsStr == [] then [] else TrimAndDropEmpty(SplitLabelPieces(labelsStr))
  }

  /** What every parsed label is: non-empty, with no surrounding whitespace and no separator. */
  predicate IsCleanLabel(l: string)
  {
    l != [] && IsTrimmed(l) && LacksSeparator(l)
  }

  lemma {:induction false} SplitPiecesLackSeparator(s: string)
    ensures forall i :: 0 <= i < |SplitLabelPieces(s)| ==> LacksSeparator(SplitLabelPieces(s)[i])
    decreases |s|
  {
    if s != [] {
      SplitPiecesLackSeparator(s[1..]);
      var rest := SplitLabelPieces(s[1..]);
      if !IsLabelSeparator(s[0]) {
        var first := [s[0]] + rest[0];
        assert forall k :: 1 <= k < |first| ==> first[k] == rest[0][k - 1];
      }
    }
  }

  /** The separator characters of `s`, in order. */
  function SeparatorsOf(s: string): (seps: string)
    ensures |seps| <= |s|
    ensures forall i :: 0 <= i < |seps| ==> IsLabelSeparator(seps[i])
    decreases |s|
  {
    if s == [] then []
    else (if IsLabelSeparator(s[0]) then [s[0]] else []) + SeparatorsOf(s[1..])
  }

  /** `pieces[0] + seps[0] + pieces[1] + … + pieces[n]`: pieces put back together around separators. */
  function Interleave(pieces: seq<string>, seps: string): string
    requires |pieces| == |seps| + 1
    decreases |seps|
  {
    if seps == [] then pieces[0]
    else pieces[0] + [seps[0]] + Interleave(pieces[1..], seps[1..])
  }

  /**
   * The split loses nothing: there is one more piece than separators in `s`, and putting the
   * pieces back together around those separators gives `s`. With `SplitPiecesLackSeparator` this
   * fixes the pieces: they are `s` cut at each separator.
   */
  lemma {:induction false} SplitLabelPiecesRejoin(s: string)
    ensures |SplitLabelPieces(s)| == |SeparatorsOf(s)| + 1
    ensures Interleave(SplitLabelPieces(s), SeparatorsOf(s)) == s
    decreases |s|
  {
    if s != [] {
      SplitLabelPiecesRejoin(s[1..]);
      var rest := SplitLabelPieces(s[1..]);
      var seps := SeparatorsOf(s[1..]);
      if IsLabelSeparator(s[0]) {
        assert SeparatorsOf(s) == [s[0]] + seps;
        InterleaveAfterSeparator(s[0], rest, seps);
      } else {
        assert SeparatorsOf(s) == seps;
        InterleaveExtendFirst(s[0], rest, seps);
      }
      assert s == [s[0]] + s[1..];
    }
  }

  /** An empty first piece followed by a separator puts that separator in front. */
  lemma InterleaveAfterSeparator(c: char, rest: seq<string>, seps: string)
    requires |rest| == |seps| + 1
    ensures Interleave([[]] + rest, [c] + seps) == [c] + Interleave(rest, seps)
  {
    var pieces := [[]] + rest;
    assert pieces[0] == [] && pieces[1..] == rest && ([c] + seps)[1..] == seps;
  }

  /** A character put at the front of the first piece goes at the front of the whole. */
  lemma InterleaveExtendFirst(c: char, rest: seq<string>, seps: string)
    requires |rest| == |seps| + 1
    ensures Interleave([[c] + rest[0]] + rest[1..], seps) == [c] + Interleave(rest, seps)
  {
    var pieces := [[c] + rest[0]] + rest[1..];
    if seps != [] {
      assert pieces[1..] == rest[1..];
      var tail := Interleave(rest[1..], seps[1..]);
      assert Interleave(pieces, seps) == ([c] + rest[0]) + [seps[0]] + tail;
    }
  }

  lemma TrimLacksSeparator(s: string)
    requires LacksSeparator(s)
    ensures LacksSeparator(Trim(s))
  {
    TrimSpec(s);
    var i := LeadingSpaces(s);
    assert forall k :: 0 <= k < |Trim(s)| ==> Trim(s)[k] == s[i + k];
  }

  lemma {:induction false} TrimAndDropEmptyClean(pieces: seq<string>)
    requires forall i :: 0 <= i < |pieces| ==> LacksSeparator(pieces[i])
    ensures forall i :: 0 <= i < |TrimAndDropEmpty(pieces)| ==> IsCleanLabel(TrimAndDropEmpty(pieces)[i])
    decreases |pieces|
  {
    if pieces != [] {
      TrimAndDropEmptyClean(pieces[1..]);
      TrimIsTrimmed(pieces[0]);
      TrimLacksSeparator(pieces[0]);
    }
  }

  /** Every parsed label is clean. */
  lemma ParseLabelsClean(labelsStr: string)
    ensures forall i :: 0 <= i < |ParseLabels(labelsStr)| ==> IsCleanLabel(ParseLabels(labelsStr)[i])
  {
    if labelsStr != [] {
      SplitPiecesLackSeparator(labelsStr);
      TrimAndDropEmptyClean(SplitLabelPieces(labelsStr));
    }
  }

  /** Text without a separator continues the first piece. */
  lemma {:induction false} SplitAfterPlainText(a: string, b: string)
    requires LacksSeparator(a)
    ensures SplitLabelPieces(a + b) == [a + SplitLabelPieces(b)[0]] + SplitLabelPieces(b)[1..]
    decreases |a|
  {
    var pb := SplitLabelPieces(b);
    if a == [] {
      assert a + b == b;
      assert a + pb[0] == pb[0];
      assert pb == [pb[0]] + pb[1..];
    } else {
      assert (a + b)[1..] == a[1..] + b;
      SplitAfterPlainText(a[1..], b);
      assert [a[0]] + (a[1..] + SplitLabelPieces(b)[0]) == a + SplitLabelPieces(b)[0];
    }
  }

  /** The pieces of labels joined with ", ": the first label, then each later one behind a space. */
  lemma {:induction false} SplitJoinedLabels(w: string, ls: seq<string>)
    requires ls != [] && LacksSeparator(w)
    requires forall i :: 0 <= i < |ls| ==> LacksSeparator(ls[i])
    ensures var pieces := SplitLabelPieces(w + JoinWith(ls, ", "));
            && |pieces| == |ls| && pieces[0] == w + ls[0]
            && forall i :: 1 <= i < |ls| ==> pieces[i] == " " + ls[i]
    decreases |ls|
  {
    if |ls| == 1 {
      SplitAfterPlainText(w + ls[0], []);
      assert w + ls[0] + [] == w + ls[0];
    } else {
      var tail := JoinWith(ls[1..], ", ");
      assert JoinWith(ls, ", ") == ls[0] + ", " + tail;
      var b := [','] + (" " + tail);
      assert w + JoinWith(ls, ", ") == (w + ls[0]) + b;
      SplitAfterPlainText(w + ls[0], b);
      assert b[1..] == " " + tail;
      var later := SplitLabelPieces(" " + tail);
      assert SplitLabelPieces(b) == [[]] + later;
      SplitJoinedLabels(" ", ls[1..]);
      assert w + ls[0] + [] == w + ls[0];
      var pieces := SplitLabelPieces(w + JoinWith(ls, ", "));
      assert pieces == [w + ls[0]] + later;
      forall i | 1 <= i < |ls|
        ensures pieces[i] == " " + ls[i]
      {
        assert pieces[i] == later[i - 1];
        assert ls[1..][i - 1] == ls[i];
      }
    }
  }

  lemma {:induction false} TrimAndDropSpaced(ls: seq<string>, pieces: seq<string>)
    requires |pieces| == |ls|
    requires forall i :: 0 <= i < |ls| ==> ls[i] != [] && Trim(pieces[i]) == ls[i]
    ensures TrimAndDropEmpty(pieces) == ls
    decreases |ls|
  {
    if ls != [] {
      TrimAndDropSpaced(ls[1..], pieces[1..]);
    }
  }

  /**
   * The labels a note is sent with (joined by ", ") parse back into the same labels, so
   * re-entering them yields the note's labels again.
   */
  lemma {:induction false} ParseJoinedLabels(ls: seq<string>)
    requires forall i :: 0 <= i < |ls| ==> IsCleanLabel(ls[i])
    ensures ParseLabels(JoinWith(ls, ", ")) == ls
  {
    if ls != [] {
      var joined := JoinWith(ls, ", ");
      SpacedPieces(ls);
      JoinedNonEmpty(ls);
      PiecesTrimToLabels(ls, SplitLabelPieces(joined));
      TrimAndDropSpaced(ls, SplitLabelPieces(joined));
    }
  }

  lemma JoinedNonEmpty(ls: seq<string>)
    requires ls != [] && ls[0] != []
    ensures JoinWith(ls, ", ") != []
  {
    if |ls| > 1 {
      assert JoinWith(ls, ", ") == ls[0] + ", " + JoinWith(ls[1..], ", ");
    }
  }

  lemma PiecesTrimToLabels(ls: seq<string>, pieces: seq<string>)
    requires ls != [] && |pieces| == |ls| && pieces[0] == ls[0]
    requires forall i :: 1 <= i < |ls| ==> pieces[i] == " " + ls[i]
    requires forall i :: 0 <= i < |ls| ==> IsCleanLabel(ls[i])
    ensures forall i :: 0 <= i < |ls| ==> ls[i] != [] && Trim(pieces[i]) == ls[i]
  {
    forall i | 0 <= i < |ls|
      ensures Trim(pieces[i]) == ls[i]
    {
      PieceTrim(ls[i], pieces[i]);
    }
  }

  lemma PieceTrim(l: string, piece: string)
    requires IsCleanLabel(l) && (piece == l || piece == " " + l)
    ensures Trim(piece) == l
  {
    TrimOfTrimmed(l);
    if piece != l {
      assert AllWhitespace(" ") by { assert IsWhitespace(' '); }
      TrimSkipsLeadingWhitespace(" ", l);
    }
  }

  lemma SpacedPieces(ls: seq<string>)
    requires ls != []
    requires forall i :: 0 <= i < |ls| ==> LacksSeparator(ls[i])
    ensures var pieces := SplitLabelPieces(JoinWith(ls, ", "));
            && |pieces| == |ls| && pieces[0] == ls[0]
            && forall i :: 1 <= i < |ls| ==> pieces[i] == " " + ls[i]
  {
    SplitJoinedLabels([], ls);
    assert [] + JoinWith(ls, ", ") == JoinWith(ls, ", ");
    assert [] + ls[0] == ls[0];
  }

  /** Parsing is a normal form: joining parsed labels and parsing again changes nothing. */
  lemma ParseLabelsNormalForm(labelsStr: string)
    ensures ParseLabels(JoinWith(ParseLabels(labelsStr), ", ")) == ParseLabels(labelsStr)
  {
    ParseLabelsClean(labelsStr);
    ParseJoinedLabels(ParseLabels(labelsStr));
  }

  // ---------------------------------------------------------------------------------------------
  // Removal and lookup by id

  /** `notes.filter(note => note.id !== noteId)`. */
  function WithoutId(notes: seq<Note>, noteId: int): (r: seq<Note>)
    ensures |r| <= |notes|
    ensures forall i :: 0 <= i < |r| ==> r[i].id != noteId
    decreases |notes|
  {
    if notes == [] then []
    else (if notes[0].id == noteId then [] else [notes[0]]) + WithoutId(notes[1..], noteId)
  }

  /** A note survives exactly when it was there and has another id. */
  lemma {:induction false} WithoutIdMembers(notes: seq<Note>, noteId: int, n: Note)
    ensures n in WithoutId(notes, noteId) <==> n in notes && n.id != noteId
    decreases |notes|
  {
    if notes != [] {
      WithoutIdMembers(notes[1..], noteId, n);
      assert notes == [notes[0]] + notes[1..];
    }
  }

  /** Removal works piece by piece, so the survivors keep their relative order. */
  lemma {:induction false} WithoutIdAppend(a: seq<Note>, b: seq<Note>, noteId: int)
    ensures WithoutId(a + b, noteId) == WithoutId(a, noteId) + WithoutId(b, noteId)
    decreases |a|
  {
    if a == [] {
      assert a + b == b;
    } else {
      assert (a + b)[1..] == a[1..] + b;
      WithoutIdAppend(a[1..], b, noteId);
    }
  }

  /** Removing an id nobody has changes nothing. */
  lemma {:induction false} WithoutAbsentId(notes: seq<Note>, noteId: int)
    requires forall i :: 0 <= i < |notes| ==> notes[i].id != noteId
    ensures WithoutId(notes, noteId) == notes
    decreases |notes|
  {
    if notes != [] {
      WithoutAbsentId(notes[1..], noteId);
    }
  }

  /** Deleting the id of a just-added note with a fresh id gives back the notes from before. */
  lemma {:induction false} DeleteUndoesAdd(notes: seq<Note>, n: Note)
    requires forall i :: 0 <= i < |notes| ==> notes[i].id != n.id
    ensures WithoutId(notes + [n], n.id) == notes
  {
    WithoutIdAppend(notes, [n], n.id);
    WithoutAbsentId(notes, n.id);
    assert WithoutId([n], n.id) == [] + WithoutId([], n.id);
  }

  /** `notes.find(n => n.id === noteId)`: the first note with that id. */
  function FindNote(notes: seq<Note>, noteId: int): (r: Option<Note>)
    ensures r.None? <==> forall i :: 0 <= i < |notes| ==> notes[i].id != noteId
    ensures r.Some? ==> exists i :: 0 <= i < |notes| && notes[i] == r.value && r.value.id == noteId
                                    && forall k :: 0 <= k < i ==> notes[k].id != noteId
    decreases |notes|
  {
    if notes == [] then None
    else if notes[0].id == noteId then Some(notes[0])
    else
      var r := FindNote(notes[1..], noteId);
      assert r.Some? ==> exists i :: 0 <= i < |notes| && notes[i] == r.value
                                     && forall k :: 0 <= k < i ==> notes[k].id != noteId by {
        if r.Some? {
          var j :| 0 <= j < |notes| - 1 && notes[1..][j] == r.value
                   && forall k :: 0 <= k < j ==> notes[1..][k].id != noteId;
          assert forall k :: 1 <= k < j + 1 ==> notes[k] == notes[1..][k - 1];
        }
      }
      r
  }

  /** A just-added note with a fresh id is what lookup by that id finds. */
  lemma {:induction false} FindAfterAdd(notes: seq<Note>, n: Note)
    requires forall i :: 0 <= i < |notes| ==> notes[i].id != n.id
    ensures FindNote(notes + [n], n.id) == Some(n)
  {
    var r := FindNote(notes + [n], n.id);
    assert (notes + [n])[|notes|] == n;
    if r.Some? {
      var i :| 0 <= i <= |notes| && (notes + [n])[i] == r.value && r.value.id == n.id;
    }
  }

  /** Saving then loading under the same key gives back the saved notes; other keys are untouched. */
  lemma SaveThenLoad(entries: map<string, seq<Note>>, key: string, notes: seq<Note>, other: string)
    requires other != key
    ensures StoredNotes(entries[key := notes], key) == notes
    ensures StoredNotes(entries[key := notes], other) == StoredNotes(entries, other)
  {
  }

  // ---------------------------------------------------------------------------------------------
  // Display order: `[...notes].sort((a, b) => b.createdAt - a.createdAt)`

  predicate NewestFirst(s: seq<Note>)
  {
    forall i, j :: 0 <= i < j < |s| ==> s[i].createdAt >= s[j].createdAt
  }

  /** Puts `n` before the first note that is not newer than it. */
  function InsertNewestFirst(n: Note, sorted: seq<Note>): (r: seq<Note>)
    ensures |r| == |sorted| + 1
    ensures r[0] == n || (sorted != [] && r[0] == sorted[0])
    decreases |sorted|
  {
    if sorted == [] || sorted[0].createdAt <= n.createdAt then [n] + sorted
    else [sorted[0]] + InsertNewestFirst(n, sorted[1..])
  }

  /** Insertion adds exactly the one note. */
  lemma {:induction false} InsertAddsOne(n: Note, sorted: seq<Note>)
    ensures multiset(InsertNewestFirst(n, sorted)) == multiset(sorted) + multiset{n}
    decreases |sorted|
  {
    if !(sorted == [] || sorted[0].createdAt <= n.createdAt) {
      var rest := InsertNewestFirst(n, sorted[1..]);
      InsertAddsOne(n, sorted[1..]);
      assert sorted == [sorted[0]] + sorted[1..];
      assert multiset([sorted[0]] + rest) == multiset{sorted[0]} + multiset(rest);
    }
  }

  /** Insertion into a newest-first list keeps it newest first. */
  lemma {:induction false} InsertKeepsNewestFirst(n: Note, sorted: seq<Note>)
    requires NewestFirst(sorted)
    ensures NewestFirst(InsertNewestFirst(n, sorted))
    decreases |sorted|
  {
    if sorted == [] || sorted[0].createdAt <= n.createdAt {
      PrependNewest(n, sorted);
    } else {
      var rest := InsertNewestFirst(n, sorted[1..]);
      InsertKeepsNewestFirst(n, sorted[1..]);
      assert rest[0] == n || rest[0] == sorted[1];
      PrependNewest(sorted[0], rest);
    }
  }

  /** A note at least as new as the head of a newest-first list can go in front of it. */
  lemma PrependNewest(x: Note, s: seq<Note>)
    requires NewestFirst(s) && (s == [] || s[0].createdAt <= x.createdAt)
    ensures NewestFirst([x] + s)
  {
    var r := [x] + s;
    forall i, j | 0 <= i < j < |r|
      ensures r[i].createdAt >= r[j].createdAt
    {
      assert r[j] == s[j - 1];
      if i > 0 {
        assert r[i] == s[i - 1];
      } else if j > 1 {
        assert s[0].createdAt >= s[j - 1].createdAt;
      }
    }
  }

  /** A stable insertion sort, newest first. */
  function SortNewestFirst(notes: seq<Note>): (r: seq<Note>)
    ensures |r| == |notes|
    decreases |notes|
  {
    if notes == [] then [] else InsertNewestFirst(notes[0], SortNewestFirst(notes[1..]))
  }

  /** The display order is a permutation of the notes, ordered by non-increasing `createdAt`. */
  lemma {:induction false} SortNewestFirstSpec(notes: seq<Note>)
    ensures multiset(SortNewestFirst(notes)) == multiset(notes)
    ensures NewestFirst(SortNewestFirst(notes))
    decreases |notes|
  {
    if notes != [] {
      SortNewestFirstSpec(notes[1..]);
      InsertAddsOne(notes[0], SortNewestFirst(notes[1..]));
      InsertKeepsNewestFirst(notes[0], SortNewestFirst(notes[1..]));
      assert notes == [notes[0]] + notes[1..];
    }
  }

  /** The notes created at time `t`, in order. */
  function CreatedAt(s: seq<Note>, t: int): seq<Note>
  {
    if s == [] then [] else (if s[0].createdAt == t then [s[0]] else []) + CreatedAt(s[1..], t)
  }

  lemma {:induction false} InsertKeepsTies(n: Note, sorted: seq<Note>, t: int)
    ensures CreatedAt(InsertNewestFirst(n, sorted), t)
            == (if n.createdAt == t then [n] else []) + CreatedAt(sorted, t)
    decreases |sorted|
  {
    var tieN := if n.createdAt == t then [n] else [];
    if sorted == [] || sorted[0].createdAt <= n.createdAt {
      var r := [n] + sorted;
      assert InsertNewestFirst(n, sorted) == r;
      assert r[0] == n && r[1..] == sorted;
      assert CreatedAt(r, t) == tieN + CreatedAt(sorted, t);
    } else {
      var rest := InsertNewestFirst(n, sorted[1..]);
      var r := [sorted[0]] + rest;
      assert InsertNewestFirst(n, sorted) == r;
      assert r[0] == sorted[0] && r[1..] == rest;
      var tie0 := if sorted[0].createdAt == t then [sorted[0]] else [];
      assert CreatedAt(r, t) == tie0 + CreatedAt(rest, t);
      assert CreatedAt(sorted, t) == tie0 + CreatedAt(sorted[1..], t);
      InsertKeepsTies(n, sorted[1..], t);
      assert tie0 == [] || tieN == [];
    }
  }

  /** The sort is stable: notes created at the same time keep their stored order. */
  lemma {:induction false} SortIsStable(notes: seq<Note>, t: int)
    ensures CreatedAt(SortNewestFirst(notes), t) == CreatedAt(notes, t)
    decreases |notes|
  {
    if notes != [] {
      SortIsStable(notes[1..], t);
      InsertKeepsTies(notes[0], SortNewestFirst(notes[1..]), t);
    }
  }

  /** Notes created at 100, 300 and 200 are shown as 300, 200, 100. */
  lemma SortExample(a: Note, b: Note, c: Note)
    requires a.createdAt == 100 && b.createdAt == 300 && c.createdAt == 200
    ensures SortNewestFirst([a, b, c]) == [b, c, a]
  {
    var s1 := InsertNewestFirst(c, []);
    assert s1 == [c];
    var s2 := InsertNewestFirst(b, s1);
    assert s2 == [b, c];
    var t1 := InsertNewestFirst(a, []);
    assert t1 == [a];
    var t2 := InsertNewestFirst(a, [c]);
    assert [c][1..] == [];
    assert t2 == [c] + t1;
    var t3 := InsertNewestFirst(a, [b, c]);
    assert [b, c][1..] == [c];
    assert t3 == [b] + t2;
    assert [a, b, c][1..] == [b, c] && [b, c][1..] == [c] && [c][1..] == [];
    assert SortNewestFirst([c]) == s1;
    assert SortNewestFirst([b, c]) == s2;
    assert SortNewestFirst([a, b, c]) == t3;
  }

  // ---------------------------------------------------------------------------------------------
  // Badge and relative time

  const BadgeCap: string := "99+"

  /** `count > 0 ? (count > 99 ? '99+' : String(count)) : no badge`. */
  function BadgeText(count: nat): (badge: Option<string>)
    ensures badge.Some? <==> count > 0
    ensures count > 99 ==> badge == Some(BadgeCap)
    ensures 0 < count <= 99 ==>
              && badge.Some? && 0 < |badge.value| <= 2 && badge.value[0] != '0'
              && (forall i :: 0 <= i < |badge.value| ==> IsDigit(badge.value[i]))
              && ParseNat(badge.value) == count
  {
    if count == 0 then None
    else if count > 99 then Some(BadgeCap)
    else
      ParseNatToString(count);
      NatToStringBelowHundred(count);
      Some(NatToString(count))
  }

  /** The buckets of `formatTime`; the calendar forms for older notes are kept as the timestamp. */
  datatype TimeLabel = JustNow | MinutesAgo(minutes: nat) | OlderThanHour(createdAt: int)

  const MinuteMs: int := 60000
  const HourMs: int := 3600000

  function RelativeTime(now: int, createdAt: int): (bucket: TimeLabel)
    ensures bucket == JustNow <==> now - createdAt < MinuteMs
    ensures bucket.OlderThanHour? <==> now - createdAt >= HourMs
    ensures bucket.MinutesAgo? ==>
              && 1 <= bucket.minutes <= 59
              && bucket.minutes * MinuteMs <= now - createdAt < (bucket.minutes + 1) * MinuteMs
  {
    var diff := now - createdAt;
    if diff < MinuteMs then JustNow
    else if diff < HourMs then MinutesAgo(diff / MinuteMs)
    else OlderThanHour(createdAt)
  }

  const JustNowText: string := "刚刚"
  const MinutesAgoSuffix: string := "分钟前"

  /** The text of the two clock-independent buckets; `None` for the calendar forms. */
  function TimeText(bucket: TimeLabel): (text: Option<string>)
    ensures text.Some? <==> !bucket.OlderThanHour?
    ensures bucket.JustNow? ==> text == Some(JustNowText)
    ensures bucket.MinutesAgo? ==>
              && |text.value| > |MinutesAgoSuffix|
              && text.value[|text.value| - |MinutesAgoSuffix|..] == MinutesAgoSuffix
              && (forall i :: 0 <= i < |text.value| - |MinutesAgoSuffix| ==> IsDigit(text.value[i]))
              && (text.value[0] == '0' ==> bucket.minutes == 0 && |text.value| == |MinutesAgoSuffix| + 1)
              && ParseNat(text.value[..|text.value| - |MinutesAgoSuffix|]) == bucket.minutes
  {
    match bucket
    case JustNow => Some(JustNowText)
    case MinutesAgo(m) =>
      var digits := NatToString(m);
      ParseNatToString(m);
      assert (digits + MinutesAgoSuffix)[..|digits|] == digits;
      Some(digits + MinutesAgoSuffix)
    case OlderThanHour(_) => None
  }

  // ---------------------------------------------------------------------------------------------
  // Sending a note

  /** `{idea: note.content, title: note.title || '', labels: note.labels.join(', ')}`. */
  function SendRecord(note: Note): Webhook.Idea
  {
    Webhook.StructuredNote(Some(note.content), Some(note.title), Some(JoinWith(note.labels, ", ")))
  }

  /** A sent note fills the template with its content, title and comma-space-joined labels. */
  lemma SentNoteTemplateData(note: Note, url: string)
    ensures Webhook.BuildTemplateData(SendRecord(note), url)
            == Template.TemplateData(note.content, note.title, JoinWith(note.labels, ", "), url)
  {
  }

  /**
   * A custom template `{"msg": "{{text}} @ {{url}}", "tags": "{{labels}}"}` applied to a note
   * labelled todo and home: the labels arrive joined by ", ".
   */
  lemma CustomTemplateExample(note: Note, url: string)
    requires note.labels == ["todo", "home"] && '{' !in note.content && '{' !in note.title
    ensures var template := Template.JObject([("msg", Template.JString(Template.Render(MessageSegments()))),
                                              ("tags", Template.JString(Template.Render(LabelsSegments())))]);
            Webhook.RequestBody(Some(template), SendRecord(note), url)
            == Template.JObject([("msg", Template.JString(note.content + " @ " + url)),
                                 ("tags", Template.JString("todo, home"))])
  {
    var d := Webhook.BuildTemplateData(SendRecord(note), url);
    JoinedExampleLabels();
    SentNoteTemplateData(note, url);
    MessageLeaf(d);
    LabelsLeaf(d);
    Template.TwoStringMembers("msg", Template.Render(MessageSegments()), "tags", Template.Render(LabelsSegments()), d);
  }

  lemma JoinedExampleLabels()
    ensures JoinWith(["todo", "home"], ", ") == "todo, home"
    ensures '{' !in "todo, home"
  {
    assert ["todo", "home"][1..] == ["home"];
  }

  /** The segments of the example template text `"{{text}} @ {{url}}"`. */
  function MessageSegments(): seq<Template.Segment>
  {
    [Template.Hole(Template.Text), Template.Lit(" @ "), Template.Hole(Template.Url)]
  }

  /** The segments of the example template text `"{{labels}}"`. */
  function LabelsSegments(): seq<Template.Segment>
  {
    [Template.Hole(Template.Labels)]
  }

  lemma MessageLeaf(d: Template.TemplateData)
    requires Template.FieldsLackBrace(d)
    ensures Template.Substitute(Template.Render(MessageSegments()), d) == d.text + " @ " + d.url
  {
    var segs := MessageSegments();
    assert segs[1..][1..][1..] == [];
    assert '{' !in " @ ";
    assert Template.LiteralsLackBrace(segs);
    assert Template.Expand(segs[1..][1..], d) == d.url + [];
    assert Template.Expand(segs, d) == d.text + (" @ " + (d.url + []));
    Template.SubstituteTemplateText(segs, d);
  }

  lemma LabelsLeaf(d: Template.TemplateData)
    requires Template.FieldsLackBrace(d)
    ensures Template.Substitute(Template.Render(LabelsSegments()), d) == d.labels
  {
    var segs := LabelsSegments();
    assert segs[1..] == [];
    assert Template.Expand(segs, d) == d.labels + [];
    Template.SubstituteTemplateText(segs, d);
  }
}
