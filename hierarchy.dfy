/**
 * The study hierarchy kept in the session state: folders (subjects) by name,
 * each holding chats (study sessions) by id, and the two pointers
 * `current_folder` and `current_chat_id`. Each method is one button or
 * selection of the sidebar or the main screen, with the state change it makes.
 */
module Hierarchy {
  import opened Wrappers
  import opened Strings
  import opened Dicts
  import opened Pages
  import opened QuizDocument

  /** A chat: `{"name": ..., "quiz_data": ...}`. */
  datatype Chat = Chat(name: string, quizData: Option<string>)

  type Chats = Dict<string, Chat>
  type Folders = Dict<string, Chats>

  /** Python truthiness of `quiz_data`: `None` and `""` are falsy. */
  predicate HasQuiz(quizData: Option<string>) {
    quizData.Some? && quizData.value != ""
  }

  /** A folder name as the create button admits it: stripped and not blank,
      so neither its first nor its last character is whitespace. */
  predicate IsFolderName(name: string) {
    name != "" && !IsSpace(name[0]) && !IsSpace(name[|name| - 1])
  }

  /** Both levels of the hierarchy are well-formed dictionaries. */
  ghost predicate WellFormed(folders: Folders) {
    && folders.Valid()
    && forall f :: f in folders.entries ==> folders.entries[f].Valid()
  }

  /** `curr_chat["quiz_data"] = quiz`: the one chat's quiz changes; its name,
      the other chats, the other folders and the order of keys do not. */
  function SetQuiz(folders: Folders, folder: string, id: string, quiz: Option<string>): (r: Folders)
    requires folder in folders.entries && id in folders.entries[folder].entries
    ensures WellFormed(folders) ==> WellFormed(r)
    ensures r.keys == folders.keys && r.entries.Keys == folders.entries.Keys
    ensures forall f :: f in folders.entries && f != folder ==> r.entries[f] == folders.entries[f]
    ensures r.entries[folder].keys == folders.entries[folder].keys
    ensures r.entries[folder].entries.Keys == folders.entries[folder].entries.Keys
    ensures forall c :: c in folders.entries[folder].entries && c != id ==>
      r.entries[folder].entries[c] == folders.entries[folder].entries[c]
    ensures r.entries[folder].entries[id] == Chat(folders.entries[folder].entries[id].name, quiz)
  {
    var chats := folders.entries[folder];
    folders.Put(folder, chats.Put(id, chats.entries[id].(quizData := quiz)))
  }

  /** Some folder holds a chat under `id`. */
  ghost predicate ChatIdIn(folders: Folders, id: string) {
    exists f :: f in folders.entries && id in folders.entries[f].entries
  }

  /** What the event handlers maintain. The current folder is always a
      folder, and the current chat id was given to some chat; nothing ties
      that chat to the current folder. */
  ghost predicate StateInvariant(folders: Folders, currentFolder: Option<string>, currentChatId: Option<string>) {
    && WellFormed(folders)
    && (forall f :: f in folders.entries ==> IsFolderName(f))
    && (currentFolder.Some? ==> currentFolder.value in folders.entries)
    && (currentChatId.Some? ==> currentFolder.Some? && ChatIdIn(folders, currentChatId.value))
  }

  /** A new folder keeps every chat where it was. */
  lemma NewFolderKeepsChats(folders: Folders, name: string, id: string)
    requires name !in folders.entries
    requires ChatIdIn(folders, id)
    ensures ChatIdIn(folders.Put(name, Empty()), id)
  {
    var f :| f in folders.entries && id in folders.entries[f].entries;
    var after := folders.Put(name, Empty());
    assert f in after.entries && after.entries[f] == folders.entries[f];
  }

  lemma NewFolderInvariant(folders: Folders, currentChatId: Option<string>, name: string)
    requires StateInvariant(folders, None, currentChatId) || exists cf :: StateInvariant(folders, Some(cf), currentChatId)
    requires IsFolderName(name) && name !in folders.entries
    ensures StateInvariant(folders.Put(name, Empty()), Some(name), currentChatId)
  {
    if currentChatId.Some? {
      NewFolderKeepsChats(folders, name, currentChatId.value);
    }
  }

  /** A new chat keeps every other chat where it was, and is found itself. */
  lemma NewChatInvariant(folders: Folders, currentFolder: string, currentChatId: Option<string>,
                         id: string, chat: Chat)
    requires StateInvariant(folders, Some(currentFolder), currentChatId)
    requires id !in folders.entries[currentFolder].entries
    ensures StateInvariant(folders.Put(currentFolder, folders.entries[currentFolder].Put(id, chat)),
                           Some(currentFolder), Some(id))
  {
    var after := folders.Put(currentFolder, folders.entries[currentFolder].Put(id, chat));
    assert id in after.entries[currentFolder].entries;
  }

  /** Changing a quiz moves no chat. */
  lemma SetQuizInvariant(folders: Folders, currentFolder: string, currentChatId: string,
                         quiz: Option<string>)
    requires StateInvariant(folders, Some(currentFolder), Some(currentChatId))
    requires currentChatId in folders.entries[currentFolder].entries
    ensures StateInvariant(SetQuiz(folders, currentFolder, currentChatId, quiz),
                           Some(currentFolder), Some(currentChatId))
  {
    var after := SetQuiz(folders, currentFolder, currentChatId, quiz);
    assert currentChatId in after.entries[currentFolder].entries;
  }

  class StudyHierarchy {
    /** `st.session_state.folders`: folder name -> chat id -> chat. */
    var folders: Folders
    /** `st.session_state.current_folder` */
    var currentFolder: Option<string>
    /** `st.session_state.current_chat_id` */
    var currentChatId: Option<string>

    /** See `StateInvariant`. */
    ghost predicate Valid()
      reads this
    {
      StateInvariant(folders, currentFolder, currentChatId)
    }

    /** `list(st.session_state.folders.keys())`: folders in creation order. */
    function FolderList(): seq<string>
      reads this
    {
      folders.keys
    }

    /** The chat ids of the current folder, in creation order, as its buttons are listed. */
    function ChatIds(): seq<string>
      reads this
      requires Valid() && currentFolder.Some?
    {
      folders.entries[currentFolder.value].keys
    }

    /** `if st.session_state.current_chat_id:` — the main screen shows a chat. */
    predicate ChatSelected()
      reads this
    {
      currentChatId.Some? && currentChatId.value != ""
    }

    /** The lookup `folders[current_folder][current_chat_id]` succeeds. */
    predicate CurrentChatValid()
      reads this
    {
      && currentFolder.Some? && currentChatId.Some?
      && currentFolder.value in folders.entries
      && currentChatId.value in folders.entries[currentFolder.value].entries
    }

    /** `curr_chat`, the chat the main screen shows. */
    function CurrentChat(): Chat
      reads this
      requires CurrentChatValid()
    {
      folders.entries[currentFolder.value].entries[currentChatId.value]
    }

    /** The initial session state: no folders and no pointers. */
    constructor ()
      ensures Valid()
      ensures folders == Empty() && currentFolder == None && currentChatId == None
    {
      folders := Empty();
      currentFolder := None;
      currentChatId := None;
    }

    /** The create-folder button: the typed name is stripped; a blank name or
        a name already present changes nothing (the existing folder is not
        selected); a new name gets an empty chat map at the end of the
        folder list and becomes the current folder. */
    method CreateFolder(input: string) returns (created: bool)
      requires Valid()
      modifies this
      ensures Valid()
      ensures created <==> Strip(input) != "" && Strip(input) !in old(folders.entries)
      ensures created ==> folders == old(folders).Put(Strip(input), Empty())
      ensures created ==> FolderList() == old(FolderList()) + [Strip(input)]
      ensures created ==> currentFolder == Some(Strip(input))
      ensures !created ==> folders == old(folders) && currentFolder == old(currentFolder)
      ensures currentChatId == old(currentChatId)
    {
      var name := Strip(input);
      created := name != "" && name !in folders.entries;
      if created {
        StripSlice(input);
        NewFolderInvariant(folders, currentChatId, name);
        folders := folders.Put(name, Empty());
        currentFolder := Some(name);
      }
    }

    /** One whole run of the sidebar for the create-folder button: the button
        (lines 76-80), then the folder select box, drawn whenever some folder
        exists, whose value `choice` is one of the listed folders. The select
        box has the last word on the current folder. */
    method CreateFolderRun(input: string, choice: Option<string>) returns (created: bool)
      requires Valid()
      requires choice.None? <==> folders.entries == map[] && Strip(input) == ""
      requires choice.Some? ==>
        choice.value in folders.entries || (Strip(input) != "" && choice.value == Strip(input))
      modifies this
      ensures Valid()
      ensures created <==> Strip(input) != "" && Strip(input) !in old(folders.entries)
      ensures created ==> folders == old(folders).Put(Strip(input), Empty())
      ensures !created ==> folders == old(folders)
      ensures currentFolder == (if choice.Some? then choice else old(currentFolder))
      ensures currentChatId == old(currentChatId)
    {
      created := CreateFolder(input);
      if choice.Some? {
        SelectFolder(choice.value);
      }
    }

    /** The folder select box: any existing folder becomes the current one.
        The chat pointer is left as it is, even when it names a chat of
        another folder. */
    method SelectFolder(name: string)
      requires Valid()
      requires name in folders.entries
      modifies this`currentFolder
      ensures Valid()
      ensures currentFolder == Some(name)
    {
      currentFolder := Some(name);
    }

    /** The start-study button: a non-empty chat name (not stripped) adds a
        chat under the fresh id, with no quiz, at the end of the current
        folder's chats, and makes it the current chat; an empty name changes
        nothing. */
    method CreateChat(chatName: string, freshId: string) returns (created: bool)
      requires Valid()
      requires currentFolder.Some?
      requires freshId !in folders.entries[currentFolder.value].entries
      modifies this`folders, this`currentChatId
      ensures Valid()
      ensures created <==> chatName != ""
      ensures created ==> folders == old(folders).Put(currentFolder.value,
                                       old(folders).entries[currentFolder.value].Put(freshId, Chat(chatName, None)))
      ensures created ==> ChatIds() == old(ChatIds()) + [freshId]
      ensures created ==> currentChatId == Some(freshId)
      ensures created ==> CurrentChatValid() && CurrentChat() == Chat(chatName, None)
      ensures !created ==> folders == old(folders) && currentChatId == old(currentChatId)
    {
      created := chatName != "";
      if created {
        var folder := currentFolder.value;
        NewChatInvariant(folders, folder, currentChatId, freshId, Chat(chatName, None));
        folders := folders.Put(folder, folders.entries[folder].Put(freshId, Chat(chatName, None)));
        currentChatId := Some(freshId);
      }
    }

    /** A chat button of the current folder: that chat becomes the current one. */
    method SelectChat(id: string)
      requires Valid()
      requires currentFolder.Some? && id in folders.entries[currentFolder.value].entries
      modifies this`currentChatId
      ensures Valid()
      ensures currentChatId == Some(id)
      ensures CurrentChatValid()
    {
      currentChatId := Some(id);
    }

    /** The generate button, shown while the current chat has no quiz: the
        page texts are filtered, the context goes to the language model, and
        its reply becomes the chat's quiz. A chat that already has a quiz is
        left alone. */
    method GenerateQuiz(pageTexts: seq<string>, quizType: QuizType,
                        llm: (QuizType, string) -> string) returns (stored: bool)
      requires Valid() && ChatSelected() && CurrentChatValid()
      modifies this`folders
      ensures Valid() && CurrentChatValid()
      ensures stored <==> !HasQuiz(old(CurrentChat()).quizData)
      ensures stored ==> folders == SetQuiz(old(folders), currentFolder.value, currentChatId.value,
                                            Some(llm(quizType, BuildContext(KeptPages(pageTexts)))))
      ensures stored ==> CurrentChat() == Chat(old(CurrentChat()).name,
                                               Some(llm(quizType, BuildContext(KeptPages(pageTexts)))))
      ensures !stored ==> folders == old(folders)
    {
      stored := !HasQuiz(CurrentChat().quizData);
      if stored {
        var pagesContent := ExtractTextWithPage(pageTexts);
        var quizResult := GenerateQuizSystem(pagesContent, quizType, llm);
        StoreQuiz(Some(quizResult));
      }
    }

    /** The regenerate button. It is drawn after the three sections, so it
        exists only when the stored quiz has them; it clears the quiz. */
    method Regenerate()
      requires Valid() && ChatSelected() && CurrentChatValid()
      requires HasQuiz(CurrentChat().quizData)
      requires RenderQuiz(CurrentChat().quizData.value).Success?
      modifies this`folders
      ensures Valid() && CurrentChatValid()
      ensures folders == SetQuiz(old(folders), currentFolder.value, currentChatId.value, None)
      ensures CurrentChat() == Chat(old(CurrentChat()).name, None)
    {
      StoreQuiz(None);
    }

    /** Writes `quiz_data` of the current chat. */
    method StoreQuiz(quiz: Option<string>)
      requires Valid() && CurrentChatValid()
      modifies this`folders
      ensures Valid() && CurrentChatValid()
      ensures folders == SetQuiz(old(folders), currentFolder.value, currentChatId.value, quiz)
      ensures CurrentChat() == Chat(old(CurrentChat()).name, quiz)
    {
      SetQuizInvariant(folders, currentFolder.value, currentChatId.value, quiz);
      folders := SetQuiz(folders, currentFolder.value, currentChatId.value, quiz);
    }
  }

  /** Creating a folder twice keeps one folder of that name, and the button
      does not select it again: right after the button the folder created in
      between stays current; the select box then decides. */
  method DuplicateFolderScenario(first: string, second: string) returns (h: StudyHierarchy)
    requires IsFolderName(first) && IsFolderName(second) && first != second
    ensures h.Valid()
    ensures h.FolderList() == [first, second]
    ensures h.currentFolder == Some(second)
  {
    StripUnchanged(first);
    StripUnchanged(second);
    h := new StudyHierarchy();
    var created := h.CreateFolder(first);
    created := h.CreateFolder(second);
    created := h.CreateFolder(first);
    assert !created;
  }

  /** Selecting another folder leaves the chat pointer on a chat of the
      folder left behind, so the main screen's lookup of the current chat fails. */
  method DanglingChatScenario(first: string, second: string, chatName: string, id: string)
    returns (h: StudyHierarchy)
    requires IsFolderName(first) && IsFolderName(second) && first != second
    requires chatName != "" && id != ""
    ensures h.Valid() && h.ChatSelected() && !h.CurrentChatValid()
  {
    StripUnchanged(first);
    StripUnchanged(second);
    h := new StudyHierarchy();
    var created := h.CreateFolder(first);
    created := h.CreateChat(chatName, id);
    created := h.CreateFolder(second);
    h.SelectFolder(second);
  }
}
