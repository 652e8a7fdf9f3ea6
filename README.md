# BulkSearch, modelled in Dafny

BulkSearch searches many text files for a regular expression at once. It
enumerates the files below a root directory, recursively (top-down, in the
order of `os.walk`) or flat (the root's own entries that are files). It scans
each file line by line with a 1-based line counter and keeps the matching
lines. It collects the files that have at least one match in an
insertion-ordered dictionary. Then it writes that dictionary as plain text,
XML or JSON.

This project models that pipeline and proves what each stage promises:

| module | file | models |
|---|---|---|
| `Wrappers` | wrappers.dfy | `Option` |
| `Strings` | strings.dfy | `str(int)`, decimal and hexadecimal digits, and their readers |
| `SearchResults` | search_results.dfy | the result dictionary as an ordered sequence of entries, with `d[k] = v` and `d.get(k)` |
| `LineMatcher` | line_matcher.dfy | `search_on_file` |
| `FileEnumerator` | file_enumerator.dfy | `get_all_files` over an in-memory directory tree |
| `EnumerationProperties` | enumeration_properties.dfy | what the enumeration returns, stated against the tree |
| `Aggregator` | aggregator.dfy | `process_search` |
| `TxtOutput` | txt_output.dfy | `output_to_txt`, and a reader for its output |
| `XmlTree` | xml_tree.dfy | ElementTree serialisation (`tostring`, US-ASCII, character references) and a reader |
| `XmlOutput` | xml_output.dfy | `output_to_xml` |
| `JsonOutput` | json_output.dfy | `output_to_json` (`json.dumps` defaults), and a reader |
| `Output` | output.dfy | the format dispatch of `process_output` |

Two things stay abstract:
- The regular-expression engine is a parameter `search: (string, string) -> bool`, standing for "`re.search(pattern, line)` is truthy".
- The contents of the files are a parameter `read`. It gives each path's sequence of decoded lines. A `DecodeError` element stands for the point where decoding fails.

The imperative parts of the source (the `+=` loops of `output_to_txt`, the
`SubElement` loops of `output_to_xml`, and the loops of `search_on_file`,
`process_search` and `get_all_files`) are methods with loops. Each method is
proved equal to a specification function. The properties are lemmas about
those functions. Every output format comes with a reader, and a round-trip
lemma shows that the output determines the result.

## Model

| member | source | states |
|---|---|---|
| SearchResults.Put | BulkSearch.py:114 | `result[file] = v` keeps the keys distinct. An existing key keeps its position and a new key goes at the end. The key then maps to `v`, and every other key keeps its value. |
| LineMatcher.SearchOnFile | BulkSearch.py:85-96 | The counting loop returns exactly the matches of the lines before the first decode error (`FileMatches`). |
| LineMatcher.ReadableCount | BulkSearch.py:90-95 | The number of lines read: every line before it decoded, and the line at that position (if any) is the decode error. |
| LineMatcher.CollectSpec | BulkSearch.py:89-93 | Over decoded lines, every match `(n, text)` has `1 <= n <= number of lines`, and line `n` is `text` unchanged. The text satisfies the pattern, the numbers strictly increase, and every matching line is present. |
| LineMatcher.FileMatchesSpec | BulkSearch.py:85-96 | The same facts for a whole file, bounded by the lines read before the first decode error. |
| LineMatcher.DecodeErrorEndsScan | BulkSearch.py:89-96 | A decode error ends the scan silently: whatever follows it is ignored, and the matches before it are kept. |
| LineMatcher.ReadableCountOf | BulkSearch.py:90-95 | When every line of `before` decodes and an error or the end follows, exactly `|before|` lines are read. |
| FileEnumerator.GetAllFiles | BulkSearch.py:57-82 | The method returns `Enumerate`: an indirection-file failure when the root is a file, the walk in recursive mode, and the listing (or the `os.listdir` failure) otherwise. |
| FileEnumerator.WalkRoots | BulkSearch.py:70-75 | The nested loops over roots, `os.walk` triples and file names append exactly `root + "/" + file` for every file of the walk, in order. |
| FileEnumerator.WalkRoot | BulkSearch.py:72-75 | The loop over the `os.walk` triples of one root appends the rendered path of every file of the walk from that root, in walk order. |
| FileEnumerator.StepPaths | BulkSearch.py:73-75 | The innermost loop appends one rendered path per file name of a triple, in order. |
| FileEnumerator.ListRoots | BulkSearch.py:76-81 | The flat loop appends the rendered regular-file entries of each root in listing order, or fails where `os.listdir` raises. |
| FileEnumerator.ListRoot | BulkSearch.py:78-81 | The loop over one directory listing appends `path + "/" + item` for exactly the entries that are regular files, in listing order. |
| FileEnumerator.FlatFilesErr | BulkSearch.py:77-78 | Listing a root that is missing or not a directory fails the whole enumeration. |
| EnumerationProperties.RecursiveEnumeration | BulkSearch.py:68-75 | Recursive enumeration of a root that is not a file is the rendered walk of that root. |
| EnumerationProperties.WalkFilesExactly | BulkSearch.py:70-75 | The walk lists a path exactly when the path lies strictly below the root and names a regular file: every file at every depth, and never a directory. |
| EnumerationProperties.WalkFilesPreorder | BulkSearch.py:70-75 | A directory's own files come before the files of its subdirectories. |
| EnumerationProperties.FlatEnumeration | BulkSearch.py:76-81 | Non-recursive enumeration of a directory is its listed file entries. |
| EnumerationProperties.ListedFilesExactly | BulkSearch.py:76-81 | The flat listing holds a path exactly when the path is a direct child of the root and a regular file. |
| EnumerationProperties.ListedFilesFirst | BulkSearch.py:70-81 | The flat listing is a prefix of the recursive walk of the same directory. |
| EnumerationProperties.MissingRoot | BulkSearch.py:70-78 | A missing root yields no files recursively, and an `os.listdir` failure otherwise. |
| Aggregator.Aggregate | BulkSearch.py:110-115 | The dictionary built over the enumerated files never holds a key twice, so repeated paths collapse. |
| Aggregator.ProcessSearch | BulkSearch.py:99-115 | The root is `--in`, else `--path`, else the current directory. A failure of the enumeration propagates; otherwise the result is `Aggregate` over the enumerated files. |
| Aggregator.SearchFiles | BulkSearch.py:110-115 | The loop calls the matcher twice per file, and the result equals `Aggregate`. |
| Aggregator.AggregateKeys | BulkSearch.py:111-115 | The keys are exactly the enumerated files whose match list is not empty. |
| Aggregator.AggregateValues | BulkSearch.py:111-115 | Each key maps to that file's match list. |
| Aggregator.AggregateEntries | BulkSearch.py:111-115 | Every entry holds its own file's match list, and that list is not empty. |
| Aggregator.AggregateOrder | BulkSearch.py:111-115 | Keys are ordered by the first occurrence of their file in the enumeration. |
| Aggregator.ResultInvariants | BulkSearch.py:85-115 | In the result no match list is empty, and within each list the line numbers start at 1 and strictly increase. |
| TxtOutput.OutputToTxt | BulkSearch.py:140-147 | The nested `+=` loops produce `Txt(data)`: per entry in order, the path, a newline, one `Line n: text` line per match, and an empty line. |
| TxtOutput.MatchesToTxt | BulkSearch.py:144-145 | The inner loop produces one `Line n: text\n` per match, in order. |
| TxtOutput.TxtAppend | BulkSearch.py:142-146 | The text report of consecutive entries is the concatenation of their reports. |
| TxtOutput.TxtEmpty | BulkSearch.py:140-147 | The text report is empty exactly when the result is empty. |
| TxtOutput.MatchLinesRoundTrip | BulkSearch.py:144-146 | Match lines followed by the blank line read back as the same matches, including texts that keep their trailing newline. |
| TxtOutput.TxtRoundTrip | BulkSearch.py:140-147 | When paths start with `/` and have no newline, and each text has a newline only at its end, the text report reads back as the same result. |
| XmlTree.EscapeText | BulkSearch.py:166 | Escaped text is ASCII and holds no `<` or `>`, and it is empty exactly when the input is. |
| XmlTree.TextRoundTrip | BulkSearch.py:166 | Escaped text reads back as the original text, including `&#N;` references for characters outside ASCII. |
| XmlTree.DocumentRoundTrip | BulkSearch.py:166 | A well-formed element tree, serialised with the short `<tag />` form for empty elements, parses back to the same tree with nothing left over. |
| XmlTree.SerializeAscii | BulkSearch.py:166 | The serialisation of a well-formed tree is pure ASCII, as the `us-ascii` encoding of `tostring` requires. |
| XmlTree.EscapePlain | BulkSearch.py:166 | ASCII text without `&`, `<` or `>` is written unchanged. |
| XmlOutput.MatchesRoundTrip | BulkSearch.py:160-165 | The `<match>` elements built for a match list, each holding `<line_number>` with `str(line_count)` and `<line_string>` with the line, read back as exactly that list, in order. |
| XmlOutput.OutputToXml | BulkSearch.py:150-166 | The loops build the tree `SearchTree(data, pattern)`. Each entry adds a `<file>` with its `<name>`, then a sibling `<matchs>`. The result is that tree's serialisation. |
| XmlOutput.BuildMatchs | BulkSearch.py:159-165 | The inner loop builds the `<matchs>` element with one `<match>` per match, in order. |
| XmlOutput.XmlRoundTrip | BulkSearch.py:150-166 | The XML report reads back as the search text and the whole result, in order: `<matchs>` follows its `<file>` and is never nested in it. |
| XmlOutput.XmlAscii | BulkSearch.py:166 | The XML report is ASCII, whatever the paths and lines contain. |
| XmlOutput.XmlEmpty | BulkSearch.py:150-166 | Without results, the report is `<search>`, the `<string>` element, `<files />` in its short form, then `</search>`. |
| XmlOutput.XmlEmptyExample | BulkSearch.py:150-166 | `output_to_xml({}, 'string')` is exactly `<search><string>string</string><files /></search>`. |
| JsonOutput.EscapeChar | BulkSearch.py:171 | One character's encoding is printable ASCII and never a bare `"`. Anything other than the character itself starts with a backslash. |
| JsonOutput.EscapeCharRoundTrip | BulkSearch.py:171 | Every character's escape, including the surrogate pairs above U+FFFF, reads back as that character. |
| JsonOutput.StringRoundTrip | BulkSearch.py:171 | A JSON string literal reads back as the original string. |
| JsonOutput.OutputToJson | BulkSearch.py:169-171 | The report is `json.dumps` of `{"string": S, "data": D}` with the default `", "` and `": "` separators: `{"string": ` + the string literal of the pattern + `, "data": {` + the entries `"<path>": [[n, "<line>"], ...]` joined by `", "` + `}}`. Its contract states that the report is a single JSON object: at least 26 characters, from `{` to `}`. JsonRoundTrip, JsonEmpty and JsonAscii are the properties proved about it. |
| JsonOutput.JsonRoundTrip | BulkSearch.py:169-171 | The JSON report reads back as `string` followed by `data`, with every entry and every match in order. |
| JsonOutput.JsonEmpty | BulkSearch.py:169-171 | Without results, the report is `{"string": <S>, "data": {}}`. |
| JsonOutput.JsonEmptyExample | BulkSearch.py:169-171 | `output_to_json({}, 'string')` is exactly `{"string": "string", "data": {}}`. |
| JsonOutput.JsonAscii | BulkSearch.py:171 | With `ensure_ascii`, every character of the report is printable ASCII. |
| JsonOutput.EscapePlain | BulkSearch.py:171 | Printable ASCII other than `"` and `\` is written unchanged. |
| Output.ProcessOutput | BulkSearch.py:118-126 | `txt`, `xml` and `json` select the corresponding formatter, and any other format yields no message. |
| Output.ReportDefined | BulkSearch.py:118-126 | A message exists exactly for the three known formats. |
| Output.ReportRoundTrip | BulkSearch.py:118-126 | Each format's message determines the result it reports (the text format under `Readable`). The XML message is also ASCII. |
| Strings.IntToString | BulkSearch.py:163 | `str(n)` is non-empty, starts with a digit exactly when `n >= 0`, and with `-` exactly when `n < 0`. |

## Left out

- Every file-system and terminal operation. `open`, `os.walk`, `os.listdir`, `os.path.isfile` and `os.path.exists` are replaced by the in-memory tree and the `read` parameter. Writing to stdout, writing to a file, and the stderr message of `process_output` (BulkSearch.py:128-137) are not modelled, including the `print(None)` / `write(None)` fallback.
- Reading the indirection file (BulkSearch.py:61-66), when the root is a regular file: this is I/O, and the code extends the list of roots with the characters of each line rather than with the line. `Enumerate` returns the failure `IndirectionFile` there.
- The regular-expression engine (`re.search`) is a parameter.
- LineMatcher.SearchOnFile and Aggregator.ProcessSearch assume that opening each file and compiling the pattern succeed. In the source, `open` (BulkSearch.py:88) lies outside the `try`, so an unreadable file or a dangling symbolic link that `os.walk` lists raises out of `search_on_file` and `process_search` and ends the run. An invalid pattern likewise makes `re.search` (BulkSearch.py:92) raise `re.error`. The model's `read` and `search` parameters are total, so both members always produce a result.
- File names and paths are sequences of Unicode scalar values, because a Dafny `char` excludes U+D800 to U+DFFF. On Linux, `os.walk` and `os.listdir` decode a name that is not valid UTF-8 with surrogateescape, so the name can hold a lone surrogate such as U+DCFF. The source then writes it as `\udcff` through `json.dumps` (BulkSearch.py:171) and as `&#56575;` through `tostring(..., 'us-ascii')` (BulkSearch.py:166). Such surrogate-escaped file names are not modelled.
- FileEnumerator.WalkFiles: a tree `Node` is only a regular file or a directory. The recursive walk lists every non-directory entry that `os.walk` puts in `files` (FIFOs, sockets, dangling symbolic links), while the flat branch keeps only the entries for which `os.path.isfile` holds. The model cannot tell these kinds of entry apart, so it does not capture that difference between the two branches.
- The character decoding of files. A decode error is modelled as one element of the line sequence. Python raises it for a decoded chunk, which can lie after lines that are never yielded.
- `os.path.abspath`: paths are component sequences below `/` and are rendered as the source joins them (`dirpath + "/" + name`). `.` and `..` components and symbolic links are not modelled, and the current directory is a parameter.
- Argument parsing, `check_path`, logging, timing and `main` (BulkSearch.py:18-54, 174-190) are command-line plumbing.
- The element tree is built as values: each sub-element is complete before it is placed in its parent. The aliasing through which `SubElement` updates an already attached child is not modelled.
- The XML reader accepts only what the model's serialiser writes: no attributes, no XML declaration, no whitespace between tags, no comments. The JSON reader likewise accepts only `json.dumps`' default layout.
- TxtOutput.TxtRoundTrip: holds only for `Readable` results. A path containing a newline, or a line with a newline before its end, makes the text report ambiguous, and the source does nothing about that.
- The literal file lists expected at test.py:18 and test.py:25-26 do not match what the code returns (absolute paths in listing order, with the default `recursive=True`). They are not stated as properties.
- The populated test vectors of test.py (two files, two matches each) are not stated literally. The structural lemmas cover them; only the empty-result vectors are fixed as literal strings.
