# Bilingual resume page: export guard, packaging and detail-line splitter

This project models, in Dafny, the logic that `App.tsx` of the bilingual
resume page contains apart from its presentation:

- **The detail-line splitter** (`renderDetailText`). An education detail line
  such as `研究方向：神经网络…` or `Focus: Neural Networks…` is shown as a bold
  label, its separator and the rest. That happens only when the earliest
  full-width colon `：` or ASCII colon `:` lies within the first twenty UTF-16
  code units. Otherwise the line is shown unchanged. Text is modelled as a
  sequence of UTF-16 code units (`DetailText.CodeUnit`), so indices and the
  threshold count exactly as JavaScript's `indexOf` and `substring` do.
  `RenderDetailText` follows the source's loop: one `indexOf` per separator,
  keeping the smaller index. It is proved equal to `Parse`, a specification
  built on an independent definition of "earliest separator"
  (`FirstSeparator`). The lemmas about `Parse` state the round trip in both
  directions (what is shown is the original text, and every well-formed
  rendering is what the splitter makes of the text it shows), the threshold
  rule as an if-and-only-if, and what the label contains.
- **The export guard** (`handleExport`, the `isExporting` flag). The class
  `App.ResumeApp` holds the language and the flag. `StartExport` drops a
  request while a job runs or when the capture target is absent. Otherwise it
  sets the flag and records the job's kind and its language at that moment.
  `FinishExport` always clears the flag, whether the job delivered a file,
  threw, or got no PNG blob. `HandleExport` runs one request straight through.
  The fallible, asynchronous body of the job (delay, font wait, rasterising,
  serialising) is one input, a `Packaging.Capture`. It says either that a step
  threw, or which bitmap was captured and whether a PNG blob was produced.
- **Packaging** (pure). The PDF page is the bitmap's size, up to jsPDF's
  page cap (below). Its orientation is landscape exactly when the bitmap is
  wider than tall. Its background is filled with the capture background
  colour. The bitmap is drawn at its own size, which covers the page exactly
  when the bitmap is within the cap. File names are
  `Gao_Jie_Resume_<lang>.pdf` or `.png`. They are parsed back to their language and kind, so distinct exports never share a
  name, and the two languages' names differ only in the language segment.
- **The language toggle** (`toggleLang`) flips `zh` and `en`.

jsPDF is not part of this model. `Packaging.JsPdfPage` states the rule
assumed of it for a page of format `[w, h]` in `px`. First it caps each side
at 14400 user units. With jsPDF's default `px` unit of 96/72 of a user unit,
that cap is 10800 px (`Packaging.MaxPagePx`). Then it swaps the two sides when
they disagree with the requested orientation. The orientation choice at
`App.tsx:107` makes that swap never happen. So the page equals the bitmap
whenever both sides are at most 10800 px. A larger bitmap gets a capped page,
while `addImage` still draws it at full size, so the PDF shows only its
top-left part.

## Model

| member | source | states |
|---|---|---|
| `Languages.FromCode` | types.ts:1 | a recognised code is the code of the language it yields |
| `Languages.CodeRoundTrip` | types.ts:1 | each language's code parses back to that language and has two letters |
| `Languages.Toggle` | App.tsx:140-142 | the toggled language is always the other one |
| `Languages.ToggleTwice` | App.tsx:140-142 | toggling twice is the identity |
| `DetailText.IndexOf` | App.tsx:152 | -1 exactly when the code unit is absent; otherwise an index holding it with no earlier occurrence |
| `DetailText.FirstSeparator` | App.tsx:147-161 | None exactly when no unit is a colon of either kind; otherwise the index of a colon with none before it |
| `DetailText.FirstSeparatorUnique` | App.tsx:147-161 | any index holding a colon with none before it is the earliest separator |
| `DetailText.RenderDetailText` | App.tsx:145-174 | the loop over both separators, keeping the smaller `indexOf` hit, computes exactly `Parse(text)` |
| `DetailText.ShownParse` | App.tsx:163-170 | label + separator + value (or the plain text) reconstructs the line exactly, and the rendering is well formed |
| `DetailText.ParseShown` | App.tsx:145-174 | every well-formed rendering is what the splitter produces from the text it shows |
| `DetailText.ParsePlainIff` | App.tsx:163-173 | a line stays plain, and unchanged, exactly when none of its first 20 code units is a colon |
| `DetailText.ParseLabelled` | App.tsx:151-165 | when split, the label is the text before the earliest separator, shorter than 20 units and colon-free, the separator is the unit at that index, and the value is everything after it |
| `DetailText.ParseExtendLabelled` | App.tsx:163-165 | text appended to a split line only lengthens its value |
| `DetailText.ParseExtendPlain` | App.tsx:163-173 | text appended to a plain line of at least 20 units leaves it plain |
| `DetailText.LabelledLine` | App.tsx:163-170 | a line whose colon-free label of fewer than 20 characters is followed by either colon splits into that label, that colon and the rest |
| `DetailText.PlainLine` | App.tsx:163-173 | a line starting with 20 colon-free characters is rendered unchanged |
| `DetailText.ChineseFocusLine` | constants.tsx:21 | `研究方向：…` splits into label `研究方向`, separator `：` and the rest |
| `DetailText.EnglishFocusLine` | constants.tsx:118 | `Focus: …` splits into label `Focus`, separator `:` and the rest |
| `DetailText.EnglishRankLine` | constants.tsx:125 | `Top 10% Academic Performance; …` is rendered unchanged |
| `Packaging.FileName` | App.tsx:117-126 | the name is the fixed prefix `Gao_Jie_Resume_`, the two-letter language code, then the kind's extension |
| `Packaging.FileNameRoundTrip` | App.tsx:117-126 | a file name parses back to the language and kind it was made from |
| `Packaging.ParseFileNameSound` | App.tsx:117-126 | a name that parses is the name of the export it parses to |
| `Packaging.FileNameInjective` | App.tsx:117-126 | two exports share a file name only if they have the same language and kind |
| `Packaging.FileNamesDifferOnlyInLanguage` | App.tsx:117-126 | the zh and en names of one kind differ, and only at the language segment |
| `Packaging.JsPdfPage` | App.tsx:106-110 | the page is the format with each side capped at 10800 px, or its transpose, wide for landscape and tall for portrait |
| `Packaging.NewPdf` | App.tsx:103-116 | the page is the bitmap's width × height with each side capped at 10800 px, so exactly the bitmap's size within the cap; landscape iff width > height; the background fill and the drawn image are the bitmap's rectangle, which covers the page exactly iff the bitmap is within the cap |
| `Packaging.FillMatchesCaptureBackground` | App.tsx:80-114 | the PDF fill colour (245, 245, 247) is the capture background `#F5F5F7` |
| `Packaging.JobResultSpec` | App.tsx:97-134 | a job fails exactly when a step threw or the PNG blob is missing; otherwise its file has the job's kind, its name parses to the job's language and kind, and its size is the bitmap's (a PDF page capped at 10800 px a side) |
| `Packaging.LanguageChangesOnlyName` | App.tsx:117-126 | the same bitmap exported in zh and en succeeds or fails alike and gives the same page or image, under the two languages' names |
| `Packaging.EnglishImageName` | App.tsx:126 | an image export in English downloads `Gao_Jie_Resume_en.png` |
| `App.ResumeApp.constructor` | App.tsx:56-57 | the page opens in Chinese with no export running |
| `App.ResumeApp.ToggleLang` | App.tsx:140-142 | the language flips and the export flag and running job are untouched |
| `App.ResumeApp.StartExport` | App.tsx:62-65 | a request starts a job iff none is running and the target is present; a dropped request changes nothing; a started job holds the flag and the current language |
| `App.ResumeApp.FinishExport` | App.tsx:67-137 | the flag is cleared whatever the outcome, and the delivered file is `JobResult` of the running job |
| `App.ResumeApp.HandleExport` | App.tsx:62-138 | a full request leaves the state as it found it and delivers a file only when it was accepted and the job succeeded |

## Left out

- Rasterising (`html2canvas`), the `onclone` restyling of the cloned page, `toDataURL`, `toBlob`, object URLs and the synthetic link click are library and DOM calls. Their outcome is the `Capture` input.
- The bitmap's dimensions are inputs, not derived from the export width of 1280, the padding of 50 and the scale of 2. How the rasteriser turns those into pixels is not modelled.
- The 100 ms settling delay and the wait for `document.fonts.ready` are timing only. The asynchronous interleaving is modelled as the two steps `StartExport` and `FinishExport`. Other operations, such as `ToggleLang` or a second `StartExport`, may be called between them. The guard reads the flag and sets it in one step.
- Which language's content the bitmap shows is not modelled. If the language is toggled while a job is in flight, the file keeps the language the request was made in (`StartExport` records it), whatever the page shows by then.
- Packaging.JsPdfPage: the 14400-unit page cap and the 96/72 `px` scale are taken from jsPDF's behaviour, which is not part of this model. The cap's `console.warn` is not modelled.
- The `console.error` log of a failed export is not modelled.
- The clipboard copy in `CopyRow` and its `window.prompt` fallback are browser I/O.
- The avatar's `onError` placeholder substitution is an event handler on the image element.
- The JSX layout, the styling and the `BentoCard` component are presentation with no logic.
- The resume data in `constants.tsx` is static. Only three of its detail lines are used, as examples of the splitter.
