# StudyPartner core, modelled in Dafny

StudyPartner is a small Streamlit study aid (`studypartner.py`). A user keeps
subjects (folders), each holding study sessions (chats). For a chat, the app
reads the text of an uploaded PDF page by page and asks a language model for a
quiz document. That document has a summary with keywords, questions, and
answers, separated by `---`. The main screen splits the stored document on
`---` and displays its first three parts.

This project models the deterministic core of that script:

- `pages.dfy` (module `Pages`): `extract_text_with_page`, a loop that keeps
  the non-empty pages as 1-based `(page, content)` records, and the context
  string `"\n".join(f"[Page {page}] {content}" ...)` handed to the model.
- `hierarchy.dfy` (module `Hierarchy`): the session state as a class
  `StudyHierarchy` with fields `folders` (folder name to chat id to chat),
  `currentFolder` and `currentChatId`. Its methods are the state changes of
  the event handlers: create folder, select folder, create chat, select chat,
  generate (store) a quiz, and regenerate (clear) it.
- `quiz_document.dfy` (module `QuizDocument`): `data.split("---")` followed
  by the reads `parts[0]`, `parts[1]`, `parts[2]`. A read out of range is the
  `IndexError` Python raises.
- `strings.dfy` (module `Strings`): the Python string operations the script
  uses: `str.strip()` (line 76), `str.split(sep)` (line 125), `sep.join(parts)`
  (line 39) and `str(n)` for a page number inside the f-string (line 39).
  `Find` (the leftmost occurrence) and `Count` (non-overlapping occurrences)
  are not called by the script; they are helpers that define and specify
  `str.split`.
- `dicts.dfy` (module `Dicts`): a Python `dict` as keys in insertion order
  plus a map. Item assignment keeps a present key in place and appends a new one.
- `wrappers.dfy` (module `Wrappers`): `Option` and `Result`.

Foreign capabilities become parameters. The PDF reader is replaced by the
sequence of page texts it yields. The language model is a function
`llm(quizType, context)` whose reply is any string. `uuid.uuid4()` is a chat id
passed in, and the only assumption about it is that the current folder does
not hold it yet.

Edge cases of the code, as modelled:

- Creating a folder whose name exists changes nothing. The button does not
  re-select the existing folder (`DuplicateFolderScenario`).
- The create-folder button's `current_folder = new_folder` (line 80) is never
  seen by the rest of the script: in the same run, lines 84-86 draw the
  folder select box (there is a folder now) and overwrite `current_folder`
  with its value. `CreateFolder` is the state right after line 80;
  `CreateFolderRun` is the whole run, where the select box's value decides the
  current folder.
- A document with fewer than two delimiters makes `parts[1]` or `parts[2]`
  raise `IndexError`. No dedicated malformed-document error exists.
- A document with more than two delimiters shows parts 0 to 2. Later parts are
  dropped, not concatenated into the answers (`TrailingPartsIgnored`).
- Selecting another folder does not clear `current_chat_id`, so the current
  chat can lie in another folder. The lookup at line 108 then fails
  (`DanglingChatScenario`). The state invariant therefore only says that the
  current chat id belongs to some folder.
- Chat names are not stripped; only an empty name is refused.
- Creating a chat has no missing-folder case: the form is drawn only while
  a folder exists and the select box has chosen one.

## Model

| member | source | states |
|---|---|---|
| Pages.ExtractTextWithPage | studypartner.py:28-35 | the loop's result is exactly the kept records; there are at most as many as pages, each is a non-empty page under its 1-based number with its text unchanged, numbers strictly increase, and every non-empty page has a record |
| Pages.KeptPages | studypartner.py:31-34 | definition of the loop's result as a recursion over the pages; its properties are in `KeptPagesStep`, `KeptPagesSound`, `KeptPagesOrdered` and `KeptPagesComplete`, and `ExtractTextWithPage` is proved equal to it |
| Pages.KeptPagesStep | studypartner.py:31-34 | the loop-step equation: one more page appends the record `(n, text)` exactly when its text is non-empty, and nothing otherwise |
| Pages.KeptPagesSound | studypartner.py:31-34 | every kept record is a non-empty page of the input under its 1-based number, and there are no more records than pages |
| Pages.KeptPagesOrdered | studypartner.py:31-34 | page numbers of kept records strictly increase |
| Pages.KeptPagesComplete | studypartner.py:33-34 | every page with non-empty text is kept |
| Pages.PageLabel | studypartner.py:39 | definition of the f-string `"[Page N] content"`; a label determines its record (`LabelInjective`) and has no line break of its own (`LabelHasNoLineBreak`) |
| Pages.BuildContext | studypartner.py:39 | definition of `"\n".join` of the labels (`Labels`); its properties are in `ContextOfFewPages`, `ContextAppend`, `ContextNonEmpty`, `ContextLines` and `ContextInjective` |
| Pages.GenerateQuizSystem | studypartner.py:37-69 | definition: the model's reply to the question style and the context; the prompt template is left out; `GenerateQuiz` states what is stored |
| Pages.ContextNonEmpty | studypartner.py:39 | some pages give a non-empty context that is at least as long as the first label |
| Pages.ContextOfFewPages | studypartner.py:39 | no pages give the empty context; one page gives just its label |
| Pages.ContextAppend | studypartner.py:39 | a further record adds a line break and its label at the end of the context |
| Pages.LabelHasNoLineBreak | studypartner.py:39 | a label has a line break only if its page text has one |
| Pages.ContextLines | studypartner.py:39 | when no page text holds a line break, splitting the context on line breaks gives back the labels in order |
| Pages.LabelInjective | studypartner.py:39 | two labels are equal exactly when their records are equal |
| Pages.ContextInjective | studypartner.py:39 | when no page text holds a line break, the context determines the records, for record lists of any length |
| Strings.Decimal | studypartner.py:39 | `str(n)` of a page number is a non-empty string of digits with no leading zero |
| Strings.DecimalRoundTrip | studypartner.py:39 | reading the digits of `str(n)` back gives `n` |
| Strings.SkipSpaces | studypartner.py:76 | the scan stops at the first non-whitespace character and passes only whitespace |
| Strings.TrimEnd | studypartner.py:76 | the end moves back over trailing whitespace only and stops after a non-whitespace character |
| Strings.Strip | studypartner.py:76 | definition of `strip()`: the text between `StripStart` and `StripEnd`; its properties are in `StripSlice`, `StripBlank`, `StripIdempotent` and `StripUnchanged` |
| Strings.StripSlice | studypartner.py:76 | `strip()` returns a slice of the input with only whitespace before and after it, which neither starts nor ends with whitespace |
| Strings.StripBlank | studypartner.py:76-77 | the stripped name is empty exactly when the input is all whitespace |
| Strings.StripIdempotent | studypartner.py:76 | stripping twice is stripping once |
| Strings.StripUnchanged | studypartner.py:76 | a text that neither starts nor ends with whitespace is unchanged by `strip()` |
| Strings.Find | studypartner.py:125 | the search `split` performs: the found index is the least occurrence of the separator; none is found only if it does not occur |
| Strings.FindLeast | studypartner.py:125 | an occurrence with none before it is the one `Find` returns |
| Strings.FindCountSkip | studypartner.py:125 | where the separator does not start the text, finding and counting both look past the first character |
| Strings.FindCount | studypartner.py:125 | the occurrence count is zero without an occurrence, and otherwise one more than the count after the first occurrence |
| Strings.Split | studypartner.py:125 | `split` returns at least one part |
| Strings.Join | studypartner.py:39 | definition of `sep.join(parts)`; its properties are in `JoinSnoc`, `JoinAt`, `JoinSplit` and `SplitJoin` |
| Strings.JoinSplit | studypartner.py:125 | joining the parts of a split with the separator gives back the text |
| Strings.SplitLength | studypartner.py:125 | a split has one more part than there are non-overlapping occurrences of the separator |
| Strings.SplitPartsFree | studypartner.py:125 | no part of a split contains the separator |
| Strings.SplitJoin | studypartner.py:125 | splitting the join of parts that can be told apart gives back those parts |
| Strings.FindAfterCleanPart | studypartner.py:125 | in a part followed by the separator, the first occurrence is right after the part when the part ends cleanly |
| Strings.SingleCharSeparator | studypartner.py:39 | a part without a given character neither contains that one-character separator nor merges with it |
| Strings.JoinSnoc | studypartner.py:39 | joining one more part appends the separator and that part |
| Strings.JoinAt | studypartner.py:125 | a join is the join of a prefix, the separator, and the join of the rest |
| QuizDocument.RenderQuiz | studypartner.py:125-135 | definition of the split and the three reads; its properties are in `RenderQuizInRange`, `RenderedSectionsFree`, `RenderedPrefix`, `ComposeRender` and `TrailingPartsIgnored` |
| QuizDocument.RenderQuizInRange | studypartner.py:125-135 | the three reads succeed exactly when the text holds at least two delimiters; with none `parts[1]` raises, with one `parts[2]` raises |
| QuizDocument.RenderedSectionsFree | studypartner.py:125-135 | no displayed section holds the delimiter |
| QuizDocument.RenderedPrefix | studypartner.py:125-135 | with exactly two delimiters the three sections and two delimiters make up the text; with more, the text goes on with a delimiter and parts never displayed |
| QuizDocument.SectionEndsCleanly | studypartner.py:125 | a section without a delimiter stays separate from a following delimiter exactly when it does not end in a dash |
| QuizDocument.ComposeRender | studypartner.py:125-135 | three clean sections joined by the delimiter, the layout the prompt asks for at lines 53-63, are displayed as exactly those sections |
| QuizDocument.Compose | studypartner.py:53-63 | definition of the layout the prompt asks for: three sections joined by the delimiter; `ComposeUnfold` and `ComposeRender` state its properties |
| QuizDocument.ComposeUnfold | studypartner.py:53-63 | the composed document is summary, delimiter, questions, delimiter, answers, in the order of the prompt's layout |
| QuizDocument.SplitAfterSection | studypartner.py:125 | a clean section followed by the delimiter is split off as the first part |
| QuizDocument.TrailingPartsIgnored | studypartner.py:125-135 | three clean sections in the prompt's layout (lines 53-63), followed by a delimiter and any text, are displayed as those three sections |
| QuizDocument.LayoutExample | studypartner.py:125-135 | `"A### ---B### ---C"` is displayed as `"A### "`, `"B### "`, `"C"` |
| QuizDocument.OneDelimiterExample | studypartner.py:125-131 | `"A---B"` makes the read `parts[2]` raise |
| QuizDocument.ExtraPartExample | studypartner.py:125-135 | `"A---B---C---D"` is displayed as `"A"`, `"B"`, `"C"`; `"D"` is not shown |
| Dicts.Dict.Put | studypartner.py:79 | item assignment sets the value, keeps every other entry, keeps a present key in place and appends a new key; the keys stay distinct |
| Dicts.Empty | studypartner.py:79 | a new dict has no keys |
| Hierarchy.HasQuiz | studypartner.py:111 | definition of the truthiness of `quiz_data`: `None` and `""` are falsy; `GenerateQuiz` stores a quiz exactly when it is false |
| Hierarchy.StudyHierarchy.ChatSelected | studypartner.py:107 | definition of the test `if current_chat_id:`; `DanglingChatScenario` shows it can hold while the lookup fails |
| Hierarchy.StudyHierarchy.CurrentChatValid | studypartner.py:108 | definition of when the lookup `folders[current_folder][current_chat_id]` succeeds; `CreateChat` and `SelectChat` establish it |
| Hierarchy.StudyHierarchy.CurrentChat | studypartner.py:108 | definition of the looked-up chat; `CreateChat`, `GenerateQuiz`, `Regenerate` and `StoreQuiz` state its new value |
| Hierarchy.SetQuiz | studypartner.py:119 | writing one chat's quiz changes that chat's quiz only: its name, the other chats, the other folders and the key order stay |
| Hierarchy.NewFolderKeepsChats | studypartner.py:79 | adding a folder moves no chat |
| Hierarchy.NewFolderInvariant | studypartner.py:79-80 | adding a well-formed new folder and selecting it keeps the state invariant |
| Hierarchy.NewChatInvariant | studypartner.py:92-96 | adding a chat to the current folder and selecting it keeps the state invariant |
| Hierarchy.SetQuizInvariant | studypartner.py:119 | writing a quiz keeps the state invariant |
| Hierarchy.StudyHierarchy.constructor | studypartner.py:20-25 | the session starts with no folders, no current folder and no current chat |
| Hierarchy.StudyHierarchy.CreateFolder | studypartner.py:76-80 | a folder is created exactly when the stripped name is non-blank and new; it gets an empty chat map at the end of the folder list and, right after line 80, is the current folder; otherwise folders and current folder are unchanged; the chat pointer never changes |
| Hierarchy.StudyHierarchy.FolderList | studypartner.py:85 | definition of `list(folders.keys())`, the folders in creation order; `CreateFolder` and `DuplicateFolderScenario` state how it changes |
| Hierarchy.StudyHierarchy.CreateFolderRun | studypartner.py:76-86 | the whole run: folders change as in `CreateFolder`, and at its end the current folder is the select box's value whenever a folder exists (it is unchanged only when no folder exists); the chat pointer never changes |
| Hierarchy.StudyHierarchy.SelectFolder | studypartner.py:86 | an existing folder becomes current; folders and the chat pointer are unchanged |
| Hierarchy.StudyHierarchy.ChatIds | studypartner.py:101-102 | definition of the key order of `current_chats.items()`, the current folder's chats in creation order; `CreateChat` states how it changes |
| Hierarchy.StudyHierarchy.CreateChat | studypartner.py:89-96 | a chat is created exactly when its name is non-empty; it gets the fresh id, the name and no quiz, is appended to the current folder's chats and becomes current; everything else is unchanged |
| Hierarchy.StudyHierarchy.SelectChat | studypartner.py:101-104 | a chat of the current folder becomes current and its lookup succeeds; nothing else changes |
| Hierarchy.StudyHierarchy.GenerateQuiz | studypartner.py:111-119 | a quiz is stored exactly when the current chat's quiz is `None` or empty; it is the model's reply to the context of the kept pages; only that chat's quiz changes |
| Hierarchy.StudyHierarchy.Regenerate | studypartner.py:137-138 | the current chat's quiz becomes `None`; nothing else changes |
| Hierarchy.StudyHierarchy.StoreQuiz | studypartner.py:119 | the current chat's quiz becomes the given value; nothing else changes |
| Hierarchy.DuplicateFolderScenario | studypartner.py:76-80 | creating a folder again keeps one folder of that name and does not write the current folder: right after line 80 the other folder is still current (the select box at line 86 then decides it) |
| Hierarchy.DanglingChatScenario | studypartner.py:86-108 | after a chat is created and another folder is selected, a chat is still selected but its lookup fails |

## Left out

- The Streamlit interface: widgets, reruns, the spinner, the markdown display and the file uploader. Only the state change behind each button is modelled.
- `PdfReader` and `page.extract_text()`: the model takes the page texts as input.
- The language model, the prompt template and its substitution: `llm` is a parameter and its reply is any string.
- Hierarchy.StudyHierarchy.GenerateQuiz: a failing model call (an exception) is not modelled, because the reply is a total function.
- `uuid.uuid4()`: the chat id is a parameter, assumed new only in the current folder.
- Strings.Strip: only ASCII whitespace (space, tab, line feed, vertical tab, form feed, carriage return and the separators 0x1C to 0x1F) is stripped, not the rest of Unicode whitespace.
- Hierarchy.StudyHierarchy.Regenerate: it requires a quiz that displays without error, because the button is drawn after the three sections; on a malformed quiz the script raises first.
- The select box at line 86 runs on every run of the script while a folder exists, and its value always overwrites `current_folder`, including the value line 80 just wrote. The model has it as the event `SelectFolder`, run after `CreateFolder` by `CreateFolderRun`. Which folder the widget returns (the user's earlier pick, or the first entry) is Streamlit's widget state and is a parameter here.
- The `key=` arguments of the chat buttons, the page title and the info message are presentation only.
- The script has no separate error for a malformed quiz document (it is the `IndexError` above), does not join parts after the third into the answers, and does not re-select an existing folder; the model has none of these either.
- Concurrency: the app handles one request at a time.
