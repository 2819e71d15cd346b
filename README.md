# Chinese-to-pinyin file translator, modelled in Dafny

`translate.py` replaces every Chinese character of a text file by its pinyin.
It first loads a CC-CEDICT dictionary into a table. Each usable dictionary line
has the form `traditional simplified [pinyin] /gloss/.../`, and the table maps
both the traditional and the simplified form to the line's pinyin. Before it is
stored, the pinyin loses its tone digits (unless tones are wanted) and is
either capitalized or lowered. The new text of the file is then built one
character at a time: a character with an entry becomes its pinyin, with one
space in front when the character before it was replaced too; every other
character is copied. The text is written back to the file in one go.

The project has four modules:

- `Wrappers` (`wrappers.dfy`): the `Option` type.
- `Pinyin` (`pinyin.dfy`): tone removal and case mapping of the stored pinyin.
- `Cedict` (`cedict.dfy`): the dictionary-line pattern, modelled as the full
  leftmost-shortest backtracking search of Python's `re.match`, and the
  loading loop as a method proved against a fold over the lines.
- `Transliterate` (`transliterate.dfy`): the character loop of `translateFile`
  as a method proved against a left-recursive scan, and the properties of that
  scan.

The table is the global `dict` of the source; here it is passed explicitly. The
lines of the dictionary and of the input file are parameters: each line is the
string the file iterator yields, newline included.

The "previous character was replaced" flag is set once per file
(translate.py:90), so it carries over line breaks; `Transliterate.ScanLinesIsScanOfConcat`
states this. File names are never transliterated (the TODO at translate.py:13).

## Model

| member | source | states |
|---|---|---|
| Pinyin.IsToneDigit | translate.py:72 | the characters of the class `[1234567890]`; see StripTonesMembers and StripTonesChar |
| Pinyin.ToLower | translate.py:73 | one character lowered: an ASCII upper-case letter becomes its lower-case letter, anything else stays |
| Pinyin.ToUpper | translate.py:73 | one character upper-cased: an ASCII lower-case letter becomes its upper-case letter, which lowers back to it; anything else stays |
| Pinyin.Lower | translate.py:73 | `str.lower()`: same length, every character lowered, no upper-case letter left |
| Pinyin.Capitalize | translate.py:73 | `str.capitalize()`: same length, first character upper-cased, every later one lowered |
| Pinyin.StripTones | translate.py:72 | removing `[1234567890]` never lengthens the string and leaves no digit |
| Pinyin.Format | translate.py:71-73 | the stored pinyin: without tones no digit is left; with tones digits stay at their positions; lowered means no upper case, capitalized means none after the first character |
| Pinyin.StripTonesConcat | translate.py:72 | digit removal works character by character: it distributes over concatenation |
| Pinyin.StripTonesMembers | translate.py:72 | a character survives exactly when it occurs in the input and is not a digit |
| Pinyin.StripTonesChar | translate.py:72 | one character is dropped exactly when it is a digit |
| Pinyin.StripTonesIdentity | translate.py:72 | a string without digits is left unchanged |
| Pinyin.StripTonesLower | translate.py:72-73 | digit removal and lowering commute |
| Pinyin.LowerIdempotent | translate.py:73 | lowering twice is lowering once |
| Pinyin.CapitalizeIsLowerButFirst | translate.py:73 | capitalizing is lowering everything and then upper-casing the first character |
| Pinyin.CapitalizeIdempotent | translate.py:73 | capitalizing twice is capitalizing once |
| Pinyin.FormatIdempotent | translate.py:71-73 | formatting a value already formatted with the same options leaves it unchanged |
| Pinyin.CapitalizeNiHao | translate.py:73 | "ni hao" capitalizes to "Ni hao" |
| Pinyin.StripNiHao | translate.py:72 | "ni3 hao3" without tones is "ni hao" |
| Pinyin.StripNi | translate.py:72 | "ni3" without tones is "ni" |
| Pinyin.StripHao | translate.py:72 | " hao3" without tones is " hao" |
| Pinyin.FormatNiHaoCapitalized | translate.py:71-73 | the default options store "ni3 hao3" as "Ni hao" |
| Pinyin.FormatNiHaoLowered | translate.py:71-73 | without tones and lowered, "ni3 hao3" is stored as "ni hao" |
| Pinyin.FormatNiHaoWithTones | translate.py:71-73 | with tones and lowered, "ni3 hao3" is stored unchanged |
| Pinyin.FormatNi | translate.py:71-73 | the default options store "ni3" as "Ni" |
| Cedict.IsComment | translate.py:68 | a line starting with `#` or `%`; its meaning for loading is stated by Apply |
| Cedict.IsSplit | translate.py:66 | the reference meaning of "the pattern fits": the four group ends, with each literal of the pattern between them and no newline inside the match; see LocateSound and LocateLeftmostShortest |
| Cedict.LexLe | translate.py:66 | the order in which lazy backtracking tries the splits: shorter earlier groups first; see LocateLeftmostShortest |
| Cedict.LineEnd | translate.py:66 | the end of the text the pattern can see: no newline before it, a newline or the end of the line at it |
| Cedict.LineEndFrom | translate.py:66 | the first newline at or after a position, or the end: `.` cannot cross it |
| Cedict.EndsAt | translate.py:66 | a lazy group may stop at a position when its following literal is there and the rest of the pattern fits; see FirstEndSpec |
| Cedict.FirstEnd | translate.py:66 | a lazy group tried shortest first, backtracking to the next length when the rest fails; see FirstEndSpec |
| Cedict.FirstEndSpec | translate.py:66 | each lazy group's search returns the least end position from which the rest of the pattern fits, and fails only when no end position fits |
| Cedict.Locate | translate.py:66-69 | the group end positions of `re.match`; see LocateSound and LocateLeftmostShortest |
| Cedict.LocateSound | translate.py:66-69 | a located split is a way the pattern fits the line |
| Cedict.LocateLeftmostShortest | translate.py:66-69 | whenever the pattern fits the line in some way, a split is found, and it is lexicographically least among all ways, as backtracking over lazy groups gives |
| Cedict.Match | translate.py:69-71 | the groups of `re.match`, or no match; see MatchFits, MatchCovers and MatchRender |
| Cedict.MatchFits | translate.py:69-70 | a line matches exactly when the pattern fits some prefix of it |
| Cedict.MatchCovers | translate.py:66-70 | a match renders back to a prefix of the line that contains no newline |
| Cedict.RenderCovers | translate.py:66 | the four groups of a split, with the pattern's literals between them, are the line up to the split's end |
| Cedict.Render | translate.py:66 | an entry written back in the pattern's layout, the inverse of Match by MatchRender |
| Cedict.RenderLayout | translate.py:66 | where each field and each literal of a rendered entry sits |
| Cedict.LocateRender | translate.py:66-69 | a rendered entry with plain fields is split exactly at its own field boundaries, whatever follows it |
| Cedict.MatchRender | translate.py:66-71 | round trip: matching a rendered entry with plain fields gives that entry back |
| Cedict.Apply | translate.py:68-76 | a comment or non-matching line leaves the table unchanged; a matched line gives both of its forms the formatted pinyin and leaves every other key as it was |
| Cedict.Load | translate.py:64-76 | the table after the lines in order from the empty table; see LoadDictionary, LastWriteWins and LoadedValuesFormatted |
| Cedict.LoadDictionary | translate.py:63-76 | the loop builds the fold of `Apply` over the lines from the empty table |
| Cedict.LastNaming | translate.py:67-76 | the index of the last matched line naming a key, or -1; no later line names it |
| Cedict.LastWriteWinsUpTo | translate.py:67-76 | after the first n lines, a key is present exactly when one of them names it, with the value of the last such line |
| Cedict.LastWriteWins | translate.py:67-76 | a key is in the loaded table exactly when some matched line names it, and its value comes from the last such line |
| Cedict.LoadedValuesFormatted | translate.py:71-76 | without tones no stored value holds a digit; lowered, no stored value holds an upper-case letter |
| Cedict.LoadPlainLine | translate.py:66-76 | loading one well-formed line gives exactly its traditional and simplified forms, both mapped to the formatted pinyin |
| Transliterate.Hit | translate.py:95-100 | the `dict[char]` lookup succeeds rather than raising `KeyError`; see Scan and ScanIsPieces |
| Transliterate.Step | translate.py:94-102 | one turn of the character loop; its output is stated per character by ScanIsPieces |
| Transliterate.Scan | translate.py:93-102 | the flag after a scan tells whether the last character was replaced (or is the entry flag for empty text) |
| Transliterate.ScanIdentity | translate.py:93-102 | text with no character in the table is copied unchanged |
| Transliterate.ScanSnoc | translate.py:93-102 | scanning one more character is one more step of the loop |
| Transliterate.TranslateFile | translate.py:89-102 | the nested loops produce the scan of the whole file's text from a cleared flag |
| Transliterate.ScanConcat | translate.py:90-102 | the flag carries over a boundary exactly as inside one string, so scanning `a + b` is scanning `a` and then `b` from the flag `a` left |
| Transliterate.Concat | translate.py:92 | the lines of a file joined into its text; see ScanLinesIsScanOfConcat |
| Transliterate.ScanLines | translate.py:92-102 | the line loop with the flag carried from line to line; see ScanLinesIsScanOfConcat |
| Transliterate.ScanLinesIsScanOfConcat | translate.py:89-102 | translating line by line with the flag kept across lines equals translating the joined text at once |
| Transliterate.Pieces | translate.py:93-102 | one output piece per character of the text; see ScanIsPieces |
| Transliterate.ScanIsPieces | translate.py:93-102 | the output is the pieces in order: a replaced character gives its pinyin, preceded by one space exactly when the character before it was replaced; any other character gives itself |
| Transliterate.LongKeysUnreachable | translate.py:95 | keys that are not one character long are never looked up, so removing them does not change the output |
| Transliterate.ScanChar | translate.py:93-102 | a one-character text is one step |
| Transliterate.NiHaoExample | translate.py:93-102 | "你好" becomes "Ni hao" |
| Transliterate.PassThroughExample | translate.py:93-102 | "你, hello 好!" becomes "Ni, hello hao!": copied characters clear the flag |

## Left out

- Command-line parsing with `getopt` (translate.py:15-59) is not modelled; `tones` and `capitalize` are parameters. The `except` branch prints the undefined name `er`, which would raise instead of printing the error.
- Re-encoding standard output, every `print`, and the timing of the load (translate.py:24, 77, 86) are I/O and are left out; so is the printed entry count.
- Opening and reading files through `codecs`, the backup copy, and the seek, write and truncate that put the text back (translate.py:65, 91, 104-114) are file I/O. Lines are taken as the strings the file iterator yields.
- Directory translation with `os.walk` (translate.py:116 onwards) calls `translateFile` on each file whose path does not end in `.BAK` (translate.py:123) and is file-system traversal; it is not modelled.
- Translating file names is not implemented in the source (the TODO at translate.py:13), so it has no model.
- Pinyin.Lower: only the ASCII letters are mapped, while Python's `str.lower()` maps every Unicode letter with a lower-case form.
- Pinyin.Capitalize: only ASCII letters are mapped, and the first character is upper-cased rather than title-cased as Python 3.8 and later do; the two differ only beyond ASCII.
- The gloss group is matched but never used by the source; it is kept in `Entry` only so that the match can be rendered back.
- The table is the module global `dict` in the source; the model passes it as a value, so no aliasing of the global is modelled.
