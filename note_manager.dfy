/**
 * The `NoteManager` of content.js: the notes of one page, kept in memory and mirrored into the
 * extension's local storage under the page's key. DOM rendering, notifications, the clipboard and
 * the message transport are outside the model; each operation returns or records what it hands
 * to them.
 */
module NoteStore {
  import opened Wrappers
  import opened Strings
  import opened Notes
  import Webhook

  /** The extension's local storage: a map from keys to stored note arrays. */
  class Storage {
    var entries: map<string, seq<Note>>

    constructor(initial: map<string, seq<Note>>)
      ensures entries == initial
    {
      entries := initial;
    }
  }

  /**
   * The note `addNote` builds from the three inputs, or `None` when both the trimmed content and
   * the trimmed title are empty. `noteId` and `createdAt` are the two clock readings.
   */
  function Draft(contentInput: string, titleInput: string, labelsInput: string,
                 noteId: int, createdAt: int): (r: Option<Note>)
    ensures r.None? <==> Trim(contentInput) == [] && Trim(titleInput) == []
    ensures r.Some? ==>
              && r.value.id == noteId && r.value.createdAt == createdAt
              && r.value.content == Trim(contentInput) && r.value.title == Trim(titleInput)
              && r.value.labels == ParseLabels(Trim(labelsInput))
              && (Trim(labelsInput) == [] ==> r.value.labels == [])
  {
    var content := Trim(contentInput);
    var title := Trim(titleInput);
    if content == [] && title == [] then None
    else Some(Note(noteId, content, title, ParseLabels(Trim(labelsInput)), createdAt))
  }

  /** A drafted note has no surrounding whitespace in its text fields and only clean labels. */
  lemma DraftIsClean(contentInput: string, titleInput: string, labelsInput: string, noteId: int, createdAt: int)
    requires Draft(contentInput, titleInput, labelsInput, noteId, createdAt).Some?
    ensures var n := Draft(contentInput, titleInput, labelsInput, noteId, createdAt).value;
            && IsTrimmed(n.content) && IsTrimmed(n.title)
            && (n.content != [] || n.title != [])
            && forall i :: 0 <= i < |n.labels| ==> IsCleanLabel(n.labels[i])
  {
    TrimIsTrimmed(contentInput);
    TrimIsTrimmed(titleInput);
    ParseLabelsClean(Trim(labelsInput));
  }

  /** Whitespace in front of the inputs makes no difference to the note. */
  lemma DraftIgnoresLeadingWhitespace(w: string, contentInput: string, titleInput: string,
                                      labelsInput: string, noteId: int, createdAt: int)
    requires AllWhitespace(w)
    ensures Draft(w + contentInput, w + titleInput, w + labelsInput, noteId, createdAt)
            == Draft(contentInput, titleInput, labelsInput, noteId, createdAt)
  {
    TrimSkipsLeadingWhitespace(w, contentInput);
    TrimSkipsLeadingWhitespace(w, titleInput);
    TrimSkipsLeadingWhitespace(w, labelsInput);
  }

  class NoteManager {
    const currentUrl: string
    const storageKey: string
    const storage: Storage
    var notes: seq<Note>
    var isOpen: bool

    /** Constructing the manager runs `init`'s load: the page's stored notes, or none. */
    constructor(url: string, storage: Storage)
      ensures currentUrl == url && storageKey == StorageKey(url) && this.storage == storage
      ensures notes == StoredNotes(storage.entries, StorageKey(url))
      ensures !isOpen
    {
      currentUrl := url;
      storageKey := StorageKey(url);
      this.storage := storage;
      isOpen := false;
      new;
      LoadNotes();
    }

    /** `loadNotes`: the notes stored under this page's key, or the empty list. */
    method LoadNotes()
      modifies this`notes
      ensures notes == StoredNotes(storage.entries, storageKey)
    {
      notes := StoredNotes(storage.entries, storageKey);
    }

    /** `saveNotes`: this page's entry becomes the current notes; other pages' entries stay. */
    method SaveNotes()
      modifies storage`entries
      ensures storage.entries == old(storage.entries)[storageKey := notes]
    {
      storage.entries := storage.entries[storageKey := notes];
    }

    /**
     * `addNote`: a note with some content or title is appended and saved; otherwise nothing
     * changes. Reports whether a note was added.
     */
    method AddNote(contentInput: string, titleInput: string, labelsInput: string,
                   noteId: int, createdAt: int) returns (added: bool)
      modifies this`notes, storage`entries
      ensures added <==> Draft(contentInput, titleInput, labelsInput, noteId, createdAt).Some?
      ensures !added ==> notes == old(notes) && storage.entries == old(storage.entries)
      ensures added ==>
                && notes == old(notes) + [Draft(contentInput, titleInput, labelsInput, noteId, createdAt).value]
                && storage.entries == old(storage.entries)[storageKey := notes]
    {
      var draft := Draft(contentInput, titleInput, labelsInput, noteId, createdAt);
      added := draft.Some?;
      if added {
        PushAndSave(draft.value);
      }
    }

    /** The `push` and `saveNotes` steps of `addNote`. */
    method PushAndSave(note: Note)
      modifies this`notes, storage`entries
      ensures notes == old(notes) + [note]
      ensures storage.entries == old(storage.entries)[storageKey := notes]
    {
      notes := notes + [note];
      SaveNotes();
    }

    /**
     * `deleteNote`: unless the user declines the confirmation, every note with the id is removed
     * and the list is saved (also when no note had that id).
     */
    method DeleteNote(noteId: int, confirmed: bool)
      modifies this`notes, storage`entries
      ensures !confirmed ==> notes == old(notes) && storage.entries == old(storage.entries)
      ensures confirmed ==>
                && notes == WithoutId(old(notes), noteId)
                && storage.entries == old(storage.entries)[storageKey := notes]
    {
      if !confirmed {
        return;
      }
      notes := WithoutId(notes, noteId);
      SaveNotes();
    }

    /** `copyNoteContent`: the text written to the clipboard, the content of the first note with the id. */
    method CopyNoteContent(noteId: int) returns (copied: Option<string>)
      ensures copied.None? <==> forall i :: 0 <= i < |notes| ==> notes[i].id != noteId
      ensures copied.Some? ==> exists i :: 0 <= i < |notes| && notes[i].id == noteId
                                           && notes[i].content == copied.value
                                           && forall k :: 0 <= k < i ==> notes[k].id != noteId
    {
      var found := FindNote(notes, noteId);
      if found.None? {
        return None;
      }
      copied := Some(found.value.content);
    }

    /**
     * `sendNoteToWebhook`: the message sent to the background script for the first note with the
     * id, carrying its content, title and comma-space-joined labels. `pageUrl` is the page's url
     * read at send time, which after in-page navigation may differ from `currentUrl`.
     */
    method SendNoteToWebhook(noteId: int, pageUrl: string) returns (msg: Option<Webhook.Message>)
      ensures msg.None? <==> forall i :: 0 <= i < |notes| ==> notes[i].id != noteId
      ensures msg.Some? ==>
                && msg.value.action == "sendToWebhook" && msg.value.url == pageUrl
                && exists i :: 0 <= i < |notes| && notes[i].id == noteId
                               && msg.value.idea == SendRecord(notes[i])
                               && forall k :: 0 <= k < i ==> notes[k].id != noteId
    {
      var found := FindNote(notes, noteId);
      if found.None? {
        return None;
      }
      msg := Some(Webhook.Message("sendToWebhook", SendRecord(found.value), pageUrl));
    }

    /** `updateBadge`: no badge without notes, the count up to 99, then "99+". */
    method UpdateBadge() returns (badge: Option<string>)
      ensures badge.None? <==> notes == []
      ensures |notes| > 99 ==> badge == Some(BadgeCap)
      ensures 0 < |notes| <= 99 ==>
                && badge.Some? && badge.value != [] && badge.value[0] != '0'
                && (forall i :: 0 <= i < |badge.value| ==> IsDigit(badge.value[i]))
                && ParseNat(badge.value) == |notes|
    {
      badge := BadgeText(|notes|);
    }

    /** The order `renderNotes` lists the notes in: all of them, newest first, ties in stored order. */
    method RenderNotes() returns (view: seq<Note>)
      ensures multiset(view) == multiset(notes)
      ensures NewestFirst(view)
      ensures forall t :: CreatedAt(view, t) == CreatedAt(notes, t)
    {
      view := SortNewestFirst(notes);
      SortNewestFirstSpec(notes);
      forall t {
        SortIsStable(notes, t);
      }
    }

    /** `toggle`: open when closed, closed when open. */
    method Toggle()
      modifies this`isOpen
      ensures isOpen == !old(isOpen)
    {
      if isOpen {
        Close();
      } else {
        Open();
      }
    }

    method Open()
      modifies this`isOpen
      ensures isOpen
    {
      isOpen := true;
    }

    method Close()
      modifies this`isOpen
      ensures !isOpen
    {
      isOpen := false;
    }
  }
}
