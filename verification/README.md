# Lecture-script generator: a Dafny model of its core

`app.py` turns a range of pages of a slide deck (PDF) into a spoken script, one
section per slide. The steps are:

1. extract the page texts of the chosen range, with the last page clamped to the document;
2. ask a language model for a time plan: seconds per slide, out of the total minutes;
3. ask the model for each slide's script in turn, giving it the slide's
   stripped text, its allotted time as a phrase, its position (initial,
   intermediate, final) and the previous slide's script;
4. save the run as a JSON record named `roteiro_YYYYMMDD_HHMMSS.json`. Each slide
   is stored under `"Slide n"` with its topic (the page's first line) and its script;
5. later, list saved files, filter them by year, month and day, and read a
   record's slides back into the session dictionary (slide number to script).

This project models those steps as pure Dafny functions and methods and proves
what each one guarantees. The two language-model calls are function-typed
parameters: `planner: PlanRequest -> PlanReply` and `gen: SlideRequest -> string`.
Python's insertion-ordered `dict` is a sequence of key/value pairs with distinct
keys (`Dicts`). `str.strip()` uses exactly the code points for which
`str.isspace()` holds (`Text`).

Modules, following the program's structure:

- `Wrappers` — `Option` and `Result`.
- `Text` — `strip`, first line, `str(n)`, `f"{n:02d}"`, the first run of digits.
- `Dicts` — `d[k] = v` on an ordered dictionary.
- `Pages` — `extrair_texto_pdf` and the clamp before it.
- `Timing` — `planejar_tempos_dos_slides`, the per-slide time lookup, the duration phrase, the position tag.
- `SessionStore` — `salvar_json`'s record and `exibir_dados_json`'s reload.
- `SavedFiles` — the file name, the year read back from it, `filtrar_por_data`.
- `Generation` — the generation loop and the whole "Gerar Roteiros" action.

## Model

| member | source | states |
|---|---|---|
| Text.StripTrims | app.py:119 | `strip()` returns a piece of its input with only whitespace cut away at the two ends |
| Text.StripPadded | app.py:119 | a stripped core surrounded by any whitespace strips back to exactly that core |
| Text.StripStripped | app.py:108 | stripping text that is already stripped (a previous script) changes nothing |
| Text.StripKeepsCharsOut | app.py:172 | stripping never introduces a character, so a line without a line feed stays without one |
| Text.FirstLine | app.py:169 | `split("\n")[0]` is a prefix of the page without a line feed, ending just before the first one if there is one |
| Text.NatToString | app.py:172 | `str(n)` is a non-empty run of digits without a leading zero, one digit exactly below 10 |
| Text.DigitsToNatOfNatToString | app.py:242 | `int(str(n)) == n` |
| Text.Pad2 | app.py:184 | `f"{n:02d}"` is all digits, exactly two below 100, and reads back as `n` |
| Text.Pad2Injective | app.py:184 | different numbers give different two-digit texts |
| Text.FirstDigitRun | app.py:242-244 | `re.search(r'\d+')` finds nothing (the `AttributeError` case) exactly when the label has no digit |
| Text.FirstDigitRunIsFirst | app.py:242 | what it finds is a non-empty run of digits with no digit before it and none right after it |
| Text.FirstDigitRunUnique | app.py:242 | only one run has that property, so the match is the leftmost, longest run of digits |
| Text.FirstDigitRunAfterText | app.py:242 | after a digit-free prefix, the digit run found is the whole trailing number |
| Dicts.Put | app.py:303 | `d[k] = v` adds `k` to the keys, keeps them distinct, and appends a new key at the end |
| Dicts.PutInPlace | app.py:303 | `d[k] = v` on an existing key keeps the length; every key keeps its place, `k` then holds `v`, and every other entry keeps its value |
| Dicts.FromPairs | app.py:239-245 | assigning the pairs in turn into `{}` gives distinct keys, exactly the keys of the pairs |
| Dicts.FromPairsKeepsLast | app.py:245 | a key assigned several times holds the value of its last assignment |
| Dicts.FromPairsKeepsFirstPlace | app.py:245 | keys come in the order of their first assignments |
| Pages.ClampEnd | app.py:274 | `min(pag_fim, total)` is at most both and equal to one of them |
| Pages.PageIndices | app.py:46 | `range(start - 1, end)` lists the 0-based indices of pages `start..end` in order |
| Pages.ExtractText | app.py:41-46 | extraction fails exactly when the range is non-empty and ends past the last page; otherwise it returns page `start + k` at position `k` |
| Pages.ClampedExtraction | app.py:274-276 | after the clamp every index read lies inside the document, so extraction succeeds with one text per page |
| Timing.PlanRequestFor | app.py:50-51 | the planning prompt lists every page as slide `pag_ini + i` with its stripped text and gives the total as `60 * minutes` seconds |
| Timing.PlanAbortCases | app.py:81-85 | the run stops before generating exactly when the call or JSON failed, `"plano"` is missing, or it is empty |
| Timing.LookupSeconds | app.py:299 | a slide gets the seconds of the first plan entry naming it, and 30 when none does |
| Timing.FirstEntry | app.py:299 | the first plan entry for a slide is one naming it with no earlier entry naming it |
| Timing.LookupIgnoresOthers | app.py:299 | plan entries for other slides, before or after, never change a slide's time |
| Timing.SplitDuration | app.py:89-92 | from 60 seconds on, a duration is whole minutes (at least 1) and 0..59 seconds that add back up to it; below 60 it is plain seconds |
| Timing.SplitDurationUnique | app.py:89-92 | that split is the only one with at least one minute and fewer than 60 leftover seconds |
| Timing.PositionTag | app.py:298 | the first slide is initial, the last of two or more is final, every other one is intermediate |
| Timing.PositionsOfRun | app.py:298 | a run has exactly one initial slide, and one final slide exactly when it has more than one slide |
| SessionStore.Topic | app.py:167-172 | a topic is stripped and has no line feed; a slide without an extracted page gets "Tema não encontrado" |
| SessionStore.TopicOfPage | app.py:168-169 | a slide with a page gets its page's first line with surrounding whitespace removed |
| SessionStore.SaveSlides | app.py:166-172 | one member per generated script, in the dictionary's order, each under `"Slide n"` with its script and its topic |
| SessionStore.SaveRecord | app.py:165-172 | the saved document holds the creation time and the metadata, and, in order, for each generated script a member `"Slide n"` with that script and the topic of page `n - pag_ini` |
| SessionStore.LabelInjective | app.py:172 | different slide numbers are saved under different labels |
| SessionStore.SavedLabelsDistinct | app.py:172 | no two saved members share a label, so none overwrites another |
| SessionStore.ParseLabel | app.py:241-244 | a label reads back as itself exactly when it has no digit, and as a number otherwise |
| SessionStore.ParseLabelValue | app.py:241-242 | a label with a digit reads back as the value of its leftmost, longest run of digits |
| SessionStore.ParseSavedLabel | app.py:242 | `"Slide n"` reads back as `n`; a negative number loses its sign |
| SessionStore.LoadEntries | app.py:240-245 | reading slides fails exactly when one lacks `roteiro`; otherwise the keys are distinct and are exactly the labels' parsed keys |
| SessionStore.Load | app.py:240 | a document without `slides` fails to load |
| SessionStore.LoadEntriesFromPairs | app.py:239-245 | when every slide has a script, loading is the assignments `d[key] = roteiro` of the slides, in order, into `{}`; so a repeated key keeps the place of its first slide and the script of its last |
| SessionStore.LoadEntriesDistinct | app.py:240-245 | when every slide has a script and labels parse to distinct keys, every slide is kept in order under its key |
| SessionStore.SaveLoadRoundTrip | app.py:163-172 | saving a run and reading it back gives the session dictionary it was saved from |
| SavedFiles.FileNameLayout | app.py:173 | a saved name is 28 characters: `roteiro_`, then year, month and day at fixed places; no `r` after the prefix |
| SavedFiles.YearSlice | app.py:213 | `name[8:12]` is the four characters from index 8, only those up to the end for a name shorter than 12, and nothing for one shorter than 8 |
| SavedFiles.YearSliceOfFileName | app.py:213 | the year selector offers, for each saved file, the year it was saved in |
| SavedFiles.SearchFrom | app.py:185 | a search succeeds exactly when the pattern matches at some position from the start point on |
| SavedFiles.MatchesAtConcat | app.py:185 | a concatenated pattern matches where its first part matches and its second part matches right after |
| SavedFiles.MatchesLiteral | app.py:185 | a literal pattern matches exactly where the name contains that text |
| SavedFiles.SearchFileName | app.py:185 | a pattern starting `rot` can only match a saved name at its start |
| SavedFiles.FilterNames | app.py:185 | the filter keeps, in order, exactly the names in which the pattern is found, each as often as it occurs |
| SavedFiles.FilterByDate | app.py:182-185 | the date filter keeps, in order, exactly the names containing `roteiro_` plus the date text, each as often as it occurs |
| SavedFiles.DatePatternNarrows | app.py:184 | the year-month-day text extends the year-month text, which extends the year text |
| SavedFiles.DayWithoutMonthSelectsNothing | app.py:184 | as written, a day chosen without a month keeps no saved file |
| SavedFiles.FilterByDateIntended | app.py:182-185 | the corrected filter keeps, in order, exactly the names its pattern is found in, each as often as it occurs |
| SavedFiles.IntendedAgreesWhenMonthChosen | app.py:184 | the corrected filter equals the written one whenever a month is chosen or no day is |
| SavedFiles.IntendedPatternWhenMonthChosen | app.py:184 | in those cases the corrected pattern is exactly the written date text |
| SavedFiles.HeadMatches | app.py:185 | `roteiro_` plus a four-character year matches a saved name exactly when it is that name's year |
| SavedFiles.Pad2Matches | app.py:184 | a two-digit month or day matches exactly the number written at that place |
| SavedFiles.MonthPartMatches | app.py:184 | right after the year, the month part matches a saved name exactly when no month is chosen or it is the name's month |
| SavedFiles.DayPartMatches | app.py:184 | after the month part, the day part matches exactly when no day is chosen or it is the name's day |
| SavedFiles.IntendedSelectsByDate | app.py:182-185 | the corrected filter keeps a saved file exactly when its year matches, and its month and day match where chosen |
| SavedFiles.OwnDateSelected | app.py:213-221 | a saved file passes the filter for its own year, year and month, and full date |
| Generation.SlideRequestFor | app.py:87-108 | the prompt carries the slide number, the position word, `m minuto(s) e s segundos` or `s segundos`, and the content and previous script each with only its surrounding whitespace removed |
| Generation.GenerateSlide | app.py:114-119 | a generated script is the reply with only its surrounding whitespace removed |
| Generation.StepFacts | app.py:296-304 | one iteration uses slide `pag_ini + idx`, the plan's time, the position tag and stripped text, and passes the previous script on unchanged |
| Generation.Steps | app.py:296-304 | the first `n` iterations produce exactly `n` entries |
| Generation.StepAt | app.py:296-304 | iteration `j` runs on page `j` with the script of iteration `j - 1` (nothing for the first) |
| Generation.StoreScript | app.py:303 | storing the next slide number, which is always new, appends it to `roteiros` |
| Generation.GenerateScripts | app.py:292-304 | the loop's log is the iterations in order, and `roteiros` maps `pag_ini + j` to iteration `j`'s script, with distinct keys |
| Generation.ScriptPairs | app.py:303 | `roteiros` holds one pair per iteration: slide `pag_ini + j` with iteration `j`'s script |
| Generation.GeneratedLog | app.py:296-304 | every slide of a run is generated from its own page, time and position, and continues from the previous slide's script |
| Generation.PlanMatchesSteps | app.py:296-302 | the planning request (built at lines 50-51) lists exactly the slides the loop generates, in order: entry `j` has the number step `j` looks its time up under and the stripped text step `j` sends |
| Generation.SelectedPages | app.py:272-276 | the run reads page `pag_ini + k` at position `k`, as many pages as the clamped range holds |
| Generation.RunMeta | app.py:309-315 | the saved metadata has the uploaded file's name, the document's page count, the start page, the end page clamped at line 274, and the minutes |
| Generation.Run | app.py:269-319 | of the early stops, an unreadable document and an unusable plan are modelled, each stopping the run exactly when it occurs; a completed run saves a record that reads back to its scripts, under the name of the save time |

## Left out

- The language-model calls (prompts, model names, temperatures, network errors) are parameters. Their replies are arbitrary strings or plan values.
- PDF parsing (PyMuPDF) is out: a document is its list of page texts, or `None` when it cannot be opened.
- The PDF export (`PDF`, `exportar_pdf`, app.py:121-161) is out: it only lays out text with a font library.
- Writing and reading files, JSON encoding and `listar_jsons`' directory listing and sort (app.py:174-180) are out. A saved record is read back as the same values it was written from.
- The Streamlit interface is out: widgets, progress bar, session state, `st.stop`/`st.rerun`, and the `$` escaping of displayed text (app.py:326-330).
- The two clock readings in `salvar_json` are parameters: the ISO creation time is an arbitrary string, the file-name time a `Timestamp`.
- Text.FirstDigitRun: `\d` is modelled as the ASCII digits only. Python's `re` also matches other Unicode decimal digits, so `"Slide ٣"` finds `٣` there and nothing here.
- SessionStore.ParseLabel: `\d` and `int()` are modelled for ASCII digits only; Python also accepts other Unicode decimal digits. The `ValueError` branch at app.py:243 is not modelled either. Every run `\d+` matches is one `int()` accepts, except one longer than `sys.get_int_max_str_digits()` (4300 by default since Python 3.11), which raises there and keeps the raw label as the key. The model reads such a run as its number.
- SessionStore.LoadedDocument: the `"slides"` members are a sequence whose names are taken to be distinct, as JSON decoding leaves them; a sequence repeating a name is not a document `json.load` can return.
- SavedFiles.FilterByDate: the chosen year is searched for as literal text. The year selector offers `name[8:12]` of every `roteiro_*.json` in the directory (app.py:180, 213), so a file the program did not write can put non-digit text there: `roteiro_.json` offers `.jso`, whose `.` the regular expression reads as any character. Such metacharacters are not modelled.
- SavedFiles.ValidTimestamp: years are limited to 1000..9999, so `%Y` always gives four digits.
- Timing.PlanTimes: plan entries are read as integer pairs. A float `tempo_atribuido_segundos` is used as it is (90.0 gives `1.0 minuto(s) e 30.0 segundos`, app.py:89-90), and a string or null one, or a `"plano"` that is not a list, makes the source raise outside any `try`. None of these is modelled.
- Generation.Run: the modelled early stops are an unreadable document and an unusable plan. The source also ends with an uncaught exception when the generation call fails (a network error, or a reply whose content is `None`, which `.strip()` rejects; app.py:114-119, called at line 302), when the first plan entry naming a slide has no `tempo_atribuido_segundos` (app.py:299), or when that value is a string or null (app.py:89). Here `gen` always returns a string and plan entries are integer pairs.
- Timing.PlanRequestFor: the prompt text itself is not modelled, only the values it is built from.
- SessionStore.Load: a `"slides"` value that is not an object of objects is not modelled.
- A slide's saved value is modelled by its `tema` and `roteiro` members only, each possibly absent in a file read back. The program reads nothing else from it.
- `salvar_json` spreads the metadata's keys into the top level of the document. The model keeps them together in one `Meta` value, since nothing reads them back.

## Findings

| source | as written | input that shows it | evidently intended | confidence | as-written member | corrected member |
|---|---|---|---|---|---|---|
| app.py:184 | with a day but no month, the pattern is `f"{ano}{0:02d}{dia:02d}"`, i.e. year, `00`, day | year `2024`, month not chosen (0), day 5: searches `roteiro_20240005`, which no saved name contains, since months run 01..12 | any month on that day: `roteiro_2024\d\d05` | medium, not executed | SavedFiles.DayWithoutMonthSelectsNothing | SavedFiles.IntendedSelectsByDate |
