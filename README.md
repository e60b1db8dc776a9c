# APIExampleAdder in Dafny

The example adder is a command-line program. It reads an OpenAPI document in
JSON, finds every operation parameter that has no `schema.example`, asks the
operator for one value per such parameter, writes the answers into the
document and saves the result. This project models the core of
`example_adder.py` and proves what it does:

1. The collection pass (the nested loop in `main`). It visits every path,
   every method of that path and every entry of that method's `parameters`
   list. It tags each entry in place with `"method"` and `"endpoint"` and
   appends the entry itself (not a copy) to a worklist.
2. `prompt_example_values`. It skips worklist entries whose schema already
   has an example. For every other entry it asks the operator and stores the
   answer verbatim under the parameter's name.
3. `add_example_values`. Every parameter whose name has an answer gets that
   answer as its example and loses both annotations.
4. `main`'s short-circuit. An empty answer map means nothing is patched or
   written.

Modules:

- `OpenApi` (`openapi.dfy`) holds the document.
  - The levels above the parameter entries are never changed by the program,
    so they are immutable values: `Paths<P>`, a sequence of (key, value)
    pairs in JSON insertion order.
  - The parameter entries are updated in place, so they are objects of
    `class Parameter`. A document being processed is a `Paths<Parameter>`:
    a tree of references, the same references the worklist holds.
  - `Snapshot` turns the current state into plain data of type
    `Paths<ParamValue>`. That is what would be serialised.
  - Positions `(i, j, k)` name the k-th parameter of the j-th method of the
    i-th path. `Flat` lists the document's parameters in path, method, list
    order.
- `ExampleValues` (`example_values.dfy`) holds each pass as a function on
  plain documents. The whole run is `RunSpec`. The lemmas state the
  program's properties about these functions.
- `ExampleAdder` (`example_adder.dfy`) holds the program's own loops as
  methods over the live objects. Each method is proved to compute the
  corresponding function of `ExampleValues`, on its result and on the new
  state of the document.
- `Findings` (`findings.dfy`) holds the annotation leak described under
  "## Findings", together with the corrected patch.

The operator's terminal becomes a parameter: `answers[n]` is what the
operator types at the n-th prompt. When the answers run out before the
prompts do, `input()` would raise EOFError. The model represents that as
the outcome `EndOfInput` of prompting and `Aborted` of the run.

The annotations `"method"` and `"endpoint"` exist only to carry prompting
context from the collection pass to the prompt. They are not part of an
OpenAPI parameter object and are meant never to reach the output. The code
removes them only from answered parameters. The model follows the code and
records the difference under "## Findings". No request-body properties are
patched: the code has no such pass.

## Model

| member | source | states |
|---|---|---|
| ExampleAdder.CollectParameters | example_adder.py:43-50 | The worklist returned is exactly the document's parameter entries (the same references) in path, method, list order. Every entry at position (i, j, k) now carries the method key and path key of its own operation, and nothing else changed. The document afterwards is `TagPaths` of the document before. |
| ExampleAdder.CollectPathItem | example_adder.py:45-50 | The loop over one path item's methods tags every parameter of each method that has a parameters list with that method's key and the path key. It returns those parameters in method, list order. The ownership record grows by exactly the path item's parameters, so every other entry keeps its owner and its value. |
| ExampleAdder.CollectParameterList | example_adder.py:47-50 | The loop over one parameters list tags each entry and returns exactly that list, the same references in the same order. The ownership record grows by exactly the list's entries, so every other entry keeps its owner and its value. |
| ExampleAdder.TagAt | example_adder.py:48-49 | One collection step assigns the entry at a position to its own operation, and no other entry changes owner or value. The tagging of every earlier position is kept, which relies on the document being a tree. |
| ExampleAdder.TagEntry | example_adder.py:48-49 | The entry's new value is `TagParam` of its old value: its "method" and "endpoint" are set, and nothing else changes. |
| ExampleAdder.PromptExampleValues | example_adder.py:4-15 | Prompting over the worklist gives exactly `PromptSpec` of the entries' current values. It ends with `EndOfInput` exactly when there are fewer answers than entries lacking an example. Otherwise the keys of the map are exactly the names of the entries lacking an example. |
| ExampleAdder.AddExampleValues | example_adder.py:17-26 | Every entry at every position becomes `PatchParam` of its old value, and the document afterwards is `PatchPaths` of the document before. This holds even when one entry is reachable from several positions. |
| ExampleAdder.PatchPathItem | example_adder.py:19-26 | The loop over one path item's methods patches every entry of each method that has a parameters list. The set of patched entries grows by exactly the path item's parameters, and every entry outside that set is as it was. |
| ExampleAdder.PatchParameterList | example_adder.py:21-26 | The loop over one parameters list patches each entry of the list. The set of patched entries grows by exactly the list's entries, and every entry outside that set is as it was. |
| ExampleAdder.PatchOperation | example_adder.py:20-26 | The body of the loop over methods patches the method's parameter list when it has one. The set of patched entries grows by exactly that list's entries, and every entry outside that set is as it was. |
| ExampleAdder.PatchAt | example_adder.py:22-26 | One patch step patches the entry at a position and adds exactly that entry to the set of patched entries. Every other entry keeps its value. |
| ExampleAdder.PatchEntry | example_adder.py:22-26 | The entry's new value is `PatchParam` of its old value. |
| ExampleAdder.Run | example_adder.py:43-60 | The run's outcome is `RunSpec` of the document as loaded. On `Written` the live document equals the document to be written. Otherwise the document is left with only the collection pass's annotations. |
| ExampleValues.RunSpec | example_adder.py:43-60 | The whole program as a function of the loaded document and the operator's answers. It tags the document, then prompts over its worklist. It gives `Aborted` when the answers run out, `NothingToDo` when the answer map is empty, and otherwise `Written` with the map, the prompts shown and the patched tagged document. Its properties are the `Run…` lemmas below. |
| ExampleValues.TagParam | example_adder.py:48-49 | One parameter after collection has "method" set to its method key and "endpoint" set to its path key. Its name, type and example are unchanged. |
| ExampleValues.Worklist | example_adder.py:43-50 | The worklist is the document's parameters in path, method, list order (the parameters of the flattened document). Its contents are stated by `WorklistMembers`, `FlatComplete` and `FlatSound`. |
| ExampleValues.MissingExample | example_adder.py:9-10 | The worklist entries prompted for: those without an example, in worklist order. Its contents are stated by `MissingExampleMembers` and `MissingExampleAppend`. |
| ExampleValues.PromptSpec | example_adder.py:4-15 | It ends with `EndOfInput` exactly when the answers run out. On `Answered`, the map's keys are exactly the names of the worklist entries with no example. There is one prompt per such entry. |
| ExampleValues.MissingExampleMembers | example_adder.py:9-10 | The entries prompted for are exactly the worklist entries whose schema has no example. Entries that have one are never asked about. |
| ExampleValues.MissingExampleAppend | example_adder.py:6-10 | Skipping keeps worklist order: the filter distributes over concatenation. |
| ExampleValues.NothingMissing | example_adder.py:5-15 | When every worklist entry has an example (in particular, for an empty worklist), no prompt is shown and the map is empty. |
| ExampleValues.AnswersLastWins | example_adder.py:14 | A name maps to the answer typed, verbatim, at its last prompt. A later answer for a repeated name replaces an earlier one. |
| ExampleValues.Answers | example_adder.py:5-14 | The map's keys are exactly the names of the parameters prompted for. |
| ExampleValues.WorklistMembers | example_adder.py:44-50 | A value is in the worklist exactly when some parameter position of the document holds it. |
| ExampleValues.TaggedWorklist | example_adder.py:48-49 | After collection every worklist entry carries both annotations. So the prompt's reads of `"method"` and `"endpoint"` never fail. |
| ExampleValues.TagPaths | example_adder.py:44-49 | Tagging keeps the document's shape. The entry at every position gets exactly the method key and path key of its own operation. |
| ExampleValues.PatchParam | example_adder.py:22-26 | One parameter after the patch keeps its name and type. If its name has an answer, the answer becomes its example, replacing any existing one, and both annotations are gone. Otherwise it is exactly as it was. |
| ExampleValues.PatchPaths | example_adder.py:18-26 | Patching keeps the document's shape and applies `PatchParam` at every position. |
| ExampleValues.PatchEffect | example_adder.py:21-26 | At each position, an answered name gets the answer as its example (replacing an existing one) and has no annotations. An unanswered parameter is left exactly as it was. Name, type and shape never change. |
| ExampleValues.PatchIdempotent | example_adder.py:24-26 | Patching twice with the same map equals patching once. |
| ExampleValues.RunPrompts | example_adder.py:6-13 | The prompts of a run are one per parameter lacking an example, in path, method, list order. Each names the parameter's own method key and path key. |
| ExampleValues.RunNothingToDo | example_adder.py:55-57 | A run stops with nothing to do exactly when every parameter of the document already has an example. |
| ExampleValues.RunWritten | example_adder.py:53-60 | A written run has a non-empty map, and every key is the name of a parameter that lacked an example. The written document has the input's shape and an example on every parameter. Answered names carry the answer and no annotations. Every other parameter keeps its example. |
| ExampleValues.RerunNothingToDo | example_adder.py:53-57 | Running the program again on the document it wrote prompts for nothing and stops with nothing to do. |
| OpenApi.FlatComplete | example_adder.py:44-50 | Every parameter position appears in the flattened document, with its own path key and method key. |
| OpenApi.FlatSound | example_adder.py:44-50 | Every element of the flattened document is the parameter at some position, with that position's path key and method key. |
| OpenApi.FlatMap | example_adder.py:44-50 | Flattening commutes with a per-parameter rewrite of the document. |
| OpenApi.MapPaths | example_adder.py:18-21 | A per-parameter rewrite keeps the paths, the methods, which operations have a parameters list and the list lengths. |
| OpenApi.Snapshot | example_adder.py:62-64 | The data serialised has the live document's shape, and at every position the current fields of the entry held there. |
| Findings.AnnotationsLeft | example_adder.py:23-26 | As written: in a written document, every parameter whose name got no answer still carries the method key and path key of its operation. |
| Findings.AnnotationLeak | example_adder.py:23-26 | As written, on path `/items` with `get` parameters `id` (no example) and `page` (example "1") and the answer "42": the written `page` still has `"method": "get"` and `"endpoint": "/items"`. |
| Findings.PatchParamFixed | example_adder.py:22-26 | Corrected: one parameter after the patch keeps its name and type and has no annotations. Its example is the answer for its name when there is one, and otherwise its old example. |
| Findings.PatchPathsFixed | example_adder.py:18-26 | Corrected: the patch keeps the document's shape and applies `PatchParamFixed` at every position. |
| Findings.RunFixedSpec | example_adder.py:53-64 | Corrected: the same run as `RunSpec`, except that a written document is the corrected patch of the tagged document. Its properties are `FixedRunClean` and `FixedRerunNothingToDo`. |
| Findings.FixedRunClean | example_adder.py:17-26 | Corrected: the run stops, prompts and collects as before. The document written has no annotation on any parameter and the same names, types and examples as the as-written output. |
| Findings.FixedRerunNothingToDo | example_adder.py:53-57 | Corrected: running again on the corrected output prompts for nothing. |

## Left out

- Argument parsing, the file read with `json.load`, the file write with `json.dump`, and every printed message (lines 28-40 and 56, 63-65). These are I/O. The document is given as a parameter, and `Snapshot` is what would be written.
- `input()`: replaced by the sequence `answers`. The prompt text itself is modelled only by its four fields (`Prompt`).
- EOFError when input ends: modelled as the outcome `EndOfInput` / `Aborted`. The traceback is not modelled.
- KeyError on a missing `"paths"`, `"name"`, `"schema"` or `"type"`: excluded by the types. Every parameter has a name and a schema type.
- KeyError on a missing `"method"`/`"endpoint"` at a prompt: a precondition of `ExampleAdder.PromptExampleValues`, and one `TaggedWorklist` proves always met after collection.
- The document's top-level keys other than `"paths"` (`openapi`, `info`, `components` and the rest): the model holds only the `"paths"` object. `json.dump` at line 30 writes them back unchanged.
- A `parameters` element that is not an object (a string or a number, say): every element is a `Parameter`. In the code, line 48 then raises TypeError.
- Values of any JSON type other than strings (a non-string example, a non-object operation or a non-list `"parameters"`): every key and example is a string.
- Path-item entries that are not operations, such as `summary`, `description` or a path-level `parameters` list: the model has only operations in a path item. In the code, lines 20 and 46 test `"parameters" in <value>` on whatever such an entry holds. For a list (a path-level `parameters` list) that is element membership, so those parameters are never collected, prompted for or patched. For a string it is a substring test: a `summary` or `description` containing the word "parameters" makes line 47 (or 21) index a string, and the program stops with a TypeError.
- Keys other than `"parameters"` in an operation: not modelled. Keys of a parameter other than `name`, `schema.type`, `schema.example` and the two annotations `"method"` and `"endpoint"` (the fields `methodTag` and `endpointTag`, written at lines 48-49, read at lines 11-12 and removed at lines 25-26): not modelled. The program does not read or change them.
- ExampleAdder.CollectParameters: requires the document to be a tree, with no parameter entry reachable from two positions. Every document made by `json.load` is a tree. With shared entries, the last position's annotations would win, which the per-position postcondition does not describe.
- The order of keys inside a parameter object and its `schema`: `ParamValue` is a record. In the code, lines 48-49 append `"method"` and `"endpoint"` at the end of the parameter object, and line 24 appends `"example"` at the end of `"schema"` when it was absent. `json.dump` at line 30 writes that order; `Snapshot` does not describe it.
- `if __name__ == "__main__"` and the output file name `openapi_with_examples.json`: not modelled.

## Findings

| source | as written | input that shows it | evidently intended | confidence | as-written member | corrected member |
|---|---|---|---|---|---|---|
| example_adder.py:23-26 | `method` and `endpoint` are popped only from parameters whose name is in the answer map. A parameter that already had an example, with a name nobody was prompted for, is written out still carrying both collection annotations. | Path `/items`, method `get`, parameters `id` (no example) and `page` (example `"1"`), operator answer `"42"`: the written `page` has `"method": "get"` and `"endpoint": "/items"`. | Strip both annotations from every parameter before writing, so they never appear in the output. | not executed | Findings.AnnotationLeak | Findings.FixedRunClean |
