# custom_request_sender — a Dafny model of its configuration merge and command loop

This project models the two pieces of logic in the request sender.

- **The configuration pipeline of `config.py`.**
  - The default tree of `ConfigurationSettings.default`: `general.host = "127.0.0.1"`, `general.port = 8080`, `requests = []`.
  - The validation schema of `ConfigurationSettings.schema`, written as a predicate.
  - The recursive overlay `__merge_conf_dicts`.
  - The decision logic of `get_config`: no path, a read or parse failure, a failed validation, or a passed validation followed by the merge.
- **The interactive loop of `prototype.py`.**
  - The fixed request table.
  - The `input_help` menu.
  - The `while` loop that reads one command token per pass. It is modelled as a pure function from the tokens typed to a trace of actions: `ShowMenu`, `Dispatch`, `Unknown`, `Exit`, `InputClosed`.

Files:

- `values.dfy` (module `Values`): the parsed-document datatype `Value` (`Null | Str | Int | Bool | List | Map`) and `Option` / `Result`.
- `config.dfy` (module `Config`): the defaults, the schema predicate `Valid`, the merge `MergeDict` / `MergeKey`, and `GetConfig`.
- `config_laws.dfy` (module `ConfigLaws`): laws of the merge and of the gate.
- `prototype.dfy` (module `Prototype`): the request table, `Menu`, the per-token transition `React`, and the loop `Run`.
- `prototype_laws.dfy` (module `PrototypeLaws`): laws of the loop. They are stated against reference definitions over the token sequence: `BeforeExit`, `Consumed`, `Requested` and `Unrecognised`.

Modelling choices:

- **Merging into a non-mapping.** The merge is modelled for updates of any shape, the way Python evaluates `key in update_dict and update_dict[key] is not None`:
  - a mapping answers by its keys;
  - a string tests for a substring, and a list tests for an equal element; a hit then raises `TypeError` on the subscript;
  - `None`, integers and booleans raise on the `in` test itself.
  So `MergeDict` returns a `Result`. Inside `get_config` the merge runs after validation. `MergeDefaultSettled` proves that it cannot raise there.
- **A document that is not a mapping.** This covers `None` from an empty file. Here the validator raises instead of answering, and the exception handler of `get_config` returns the defaults. `GetConfig` reports this as the `ReadingFailed` outcome.
- **Unknown keys.** The validator runs with `allow_unknown`, which also applies inside the nested `general` and request schemas. Unknown keys are therefore accepted at every level.
- **Booleans as ports.** The schema engine counts a boolean as an integer. A boolean port is still rejected by the `min: 1024` rule, so `ValidPort` simply asks for an `Int`.
- **Request types.** The schema allows exactly `DELETE` and `POST` (config.py:68).
- **The request table.** main.py:17 only loads the configuration. The loop uses the literal table of prototype.py:11-14 and always sends to `localhost:8888`.
- **End of input.** At end of input `input()` raises `EOFError`, and nothing catches it. The trace then ends in `InputClosed`, with no `Exit`.

## Model

| member | source | states |
|---|---|---|
| Config.LookupKey | config.py:111 | Only a mapping update can yield a value for a key; a mapping never raises on the test, while `None`, an integer or a boolean always does |
| Config.MergeDict | config.py:99-118 | A successful merge has exactly the key set of the base dict; it succeeds iff no key's entry raises |
| Config.MergeKey | config.py:110-117 | The entry for one base key can raise only when the update is not a mapping, or when the base value is a mapping and the update holds a non-null value under that key (the recursive merge into it then raised); `ConfigLaws.MergeFitsSucceeds` gives the shape of update under which no key raises |
| Config.DefaultSettled | config.py:41-47 | The default tree (`general.host = "127.0.0.1"`, `general.port = 8080`, `requests = []`) passes its own schema and already has the shape of every loaded configuration |
| Config.Valid | config.py:50-73 | The schema as a predicate. It has no contract of its own: no field is required, `general` and `requests` may be null, the port must lie in [1024, 65535], request types are DELETE or POST, and unknown keys are accepted at every level. `ConfigLaws.SchemaIsOpen`, `PortOutOfRangeGivesDefaults` and `DisallowedTypeGivesDefaults` state these laws |
| Config.GetConfig | config.py:121-155 | Every outcome is a settled configuration (the default keys, a string host, a port in [1024, 65535], a valid requests list); any outcome other than a passed validation is exactly the defaults; validation passes iff a path was given, the document was read, is a mapping and is valid, and then the result is the merge of the document onto the defaults |
| Config.MergeGeneralValid | config.py:50-59 | A valid non-null `general` section merges onto the default section without raising and gives a section with host and port whose values pass the schema |
| Config.MergeDefaultSettled | config.py:137-139 | A document that passes the schema merges onto the defaults without raising, and the result is a settled configuration |
| ConfigLaws.MergeEntry | config.py:111-117 | For a mapping update: a key that is absent or null keeps the base value; a non-mapping base value is replaced verbatim by the update value; a mapping base value becomes the recursive merge |
| ConfigLaws.MergeEmptyUpdate | config.py:109-118 | Merging an empty mapping returns the base unchanged |
| ConfigLaws.MergeSelf | config.py:99-118 | Merging a mapping onto itself returns it unchanged |
| ConfigLaws.MergeIdempotent | config.py:99-118 | Applying the same update to the result of a successful merge gives that result again |
| ConfigLaws.MergeIgnoresUnknownKey | config.py:110-111 | A key that the base lacks plays no part in the merge, whatever its value in the update |
| ConfigLaws.MergeFitsSucceeds | config.py:111-113 | An update that is a mapping wherever the base has a mapping and the update is non-null makes the merge succeed |
| ConfigLaws.MergeNonMapping | config.py:110-111 | A non-mapping update makes the merge succeed iff no base key is found "in" it, and then the base comes back unchanged |
| ConfigLaws.StringSectionRaises | config.py:111-113 | A string `general: localhost` makes the merge raise, because "host" is a substring of it |
| ConfigLaws.ShortStringSectionIgnored | config.py:111-117 | A string `general` section that contains neither "host" nor "port" is silently ignored |
| ConfigLaws.NoDocumentGivesDefaults | config.py:131-153 | With no (or an empty) path, or a failed read or parse, the result is exactly the defaults and validation is not reported as passed |
| ConfigLaws.InvalidGivesDefaults | config.py:137-145 | A mapping document that fails validation yields exactly the defaults, with nothing of it applied |
| ConfigLaws.SchemaIsOpen | config.py:50-73 | An empty document and one with null `general` and `requests` pass; adding a key the schema does not name, at the top level (config.py:136), inside `general` or inside a request, never changes the verdict |
| ConfigLaws.PortOutOfRangeGivesDefaults | config.py:56-58 | A `general.port` outside [1024, 65535] rejects the whole document and yields the defaults |
| ConfigLaws.DisallowedTypeGivesDefaults | config.py:68 | A request whose `type` is anything but DELETE or POST rejects the whole document and yields the defaults |
| ConfigLaws.HostOnlyOverride | config.py:112-113 | Overriding only `general.host` changes only the host; `general.port` and `requests` keep their defaults |
| ConfigLaws.NullGeneralKeepsDefaults | config.py:53 | `general: null` validates and the whole default configuration is kept |
| ConfigLaws.RequestsReplacedWhole | config.py:114-115 | A valid `requests` list replaces the default list whole |
| ConfigLaws.UnknownTopLevelKeyIgnored | config.py:136 | Adding an unknown top-level key changes neither the verdict nor the resulting configuration |
| ConfigLaws.LoadIdempotent | config.py:139 | Merging the document again onto a configuration it produced changes nothing |
| Prototype.Lookup | prototype.py:23-25 | A key is found iff some table entry has it, and the request found is the one stored under that key |
| Prototype.Menu | prototype.py:16 | The menu is "0: exit application" followed by one "key: title" line per entry, in table order |
| Prototype.React | prototype.py:23-33 | One token produces at most one action, which is a dispatch or an unknown-command report; the loop stops after the token iff it is "0" |
| Prototype.ReactCases | prototype.py:23-33 | A key sends its entry's verb and path to the fixed server; "0" that is not a key does nothing; any other token reports an unknown command |
| Prototype.Run | prototype.py:19-35 | The loop itself. It has no contract of its own; `RunShape`, `RunDispatches`, `RunUnknowns`, `RunMenuCount`, `RunMenusUnchanged`, `RunLast` and `RunFinalOnlyLast` state its laws |
| Prototype.RunShape | prototype.py:19-35 | Every trace opens with the menu and ends with an action that ends the loop: `Exit` or the closed input |
| PrototypeLaws.RunDispatches | prototype.py:20-30 | The requests sent are exactly those named by the tokens read up to and including the first "0", in typing order, each with its entry's verb and path |
| PrototypeLaws.RunUnknowns | prototype.py:31-33 | The number of "Unknown command code!" reports equals the number of tokens before the first "0" that are neither a key nor "0" |
| PrototypeLaws.RunMenuCount | prototype.py:20-22 | The menu is shown once before every read: once per token read, plus once before the read that found the input closed |
| PrototypeLaws.RunMenusUnchanged | prototype.py:11-16 | Every menu shown is the menu of the same, unmodified table |
| PrototypeLaws.RunLast | prototype.py:20-35 | The trace ends with `Exit` iff "0" was typed, and otherwise with the closed input |
| PrototypeLaws.RunFinalOnlyLast | prototype.py:20-35 | No exit or closed-input action comes before the last action, so nothing follows the exit |
| PrototypeLaws.DispatchCount | prototype.py:20-30 | With no entry under "0", the number of requests sent equals the number of key tokens typed before the first "0" |
| PrototypeLaws.ExitSendsNothing | prototype.py:32-35 | With no entry under "0", typing "0" shows the menu and exits, with no dispatch and no unknown-command report |
| PrototypeLaws.LookupEntry | prototype.py:11-14 | With distinct keys, looking up an entry's key finds that entry |
| PrototypeLaws.KeySendsRequest | prototype.py:23-30 | A token equal to an entry's key sends exactly that entry's verb and path to localhost:8888, and the loop continues with the menu |
| PrototypeLaws.OtherTokenIsUnknown | prototype.py:31-33 | Any token that is neither a key nor "0" produces exactly one unknown-command report, and the loop continues |
| PrototypeLaws.RequestsTableWellFormed | prototype.py:11-14 | The literal table has distinct keys and no entry under "0"; "1" sends DELETE /test, "2" sends POST /test, and no other token is a key |
| PrototypeLaws.RequestsMenu | prototype.py:16 | The literal table's menu is "0: exit application", "1: send del", "2: send post" |
| PrototypeLaws.DeleteThenExit | prototype.py:19-35 | Typing "1" then "0" sends one DELETE /test and exits |
| PrototypeLaws.UnknownThenExit | prototype.py:19-35 | Typing "9" then "0" reports one unknown command and exits |

## Left out

- logger.py: logging-sink configuration and the global logger are I/O plumbing. Every `log(...)` call is left out; `GetConfig` reports only which branch it took.
- main.py: argument parsing; it only configures logging and calls `get_config`.
- pinger.py: it spawns an external `ping` process, which is pure I/O.
- Opening the file and `yaml.safe_load` (config.py:133-134) are external. Their outcome is the `read` parameter of `GetConfig`, with `None` when either raised.
- YAML values outside the `Value` datatype are left out: floats, dates and non-string mapping keys. The merge only looks up string keys, so non-string keys in an update would be ignored anyway.
- Key order: Python dicts keep insertion order; Dafny maps have none. Only the printed form of the configuration depends on it.
- `ConfigurationSettings.__check_file_existence` / `__check_folder_existence` (config.py:76-96) are filesystem checks that no schema rule uses.
- The `Config` wrapper class (config.py:11-19) only holds the dict, so `GetConfig` returns the dict itself.
- Schema-engine behaviour beyond the declared rules is not modelled. The rules of config.py:50-73 are transcribed as a predicate.
- The HTTP exchange (prototype.py:24-30) is the opaque `Dispatch` action. The response status, reason and body are not modelled. The model also assumes the exchange returns. In the code, a connection error is not caught and ends the program.
