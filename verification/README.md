# Bandwidth IRIS SDK client core in Dafny

This project models two small pieces of the Python IRIS SDK (telephone-number
order management over a REST+XML API):

- **`Client`** (`iris_sdk/client.py`): how a request URI is composed from the
  configured base URL and a resource section (`get_uri`), and how the four HTTP
  verbs `delete`, `get`, `post` and `put` hand one request each to the REST
  transport with the configured basic-auth credentials.
- **`TelephoneNumberData`** (`iris_sdk/models/data/telephone_number.py`): the
  alias properties `id` and `telephone_number`, both views of the one backing
  attribute `full_number`, and `last_modified_date`, a view of `last_modified`.

Modules:

- `Wrappers` (`wrappers.dfy`): `Option`, standing for Python's `None` defaults.
- `Trim` (`trim.dfy`): `str.lstrip(c)` / `str.rstrip(c)` for one character, as
  recursive functions on `seq<char>` whose contracts characterise the result
  completely (a run of `c` removed at one end, nothing else touched), and
  `Strip`, the two in sequence; with uniqueness, idempotence and "adding more
  `c` at the end changes nothing" lemmas.
- `IrisClient` (`iris_client.dfy`): the `Client` class, `GetUri` and the verbs.
  The transport is a parameter, a total function `Request -> Response`; each
  verb returns an `Exchange`
  holding its result and the list of requests it sent, so "exactly one request,
  to `GetUri(section)`, with `(username, password)`" is a postcondition.
- `TelephoneNumber` (`telephone_number.dfy`): an immutable record with the two
  backing slots and an opaque `rest` for the other attributes of the map;
  getters and setters return values and updated records. `Run` replays any
  script of assignments, which describes every reachable record.

Where the docstring of `get_uri` and its code disagree, the model follows the
code. The docstring (`iris_sdk/client.py:40`) says `http://foo/bar///` +
`///bar///` gives `http://foo/bar`; the code gives `http://foo/bar/bar`.
`IrisClient.DocstringExample` proves what the code computes for every input of
that shape. Two further facts about the code:

- Only the ends are trimmed: `//` inside the base URL or the section is kept
  (`IrisClient.InteriorSlashesKept`).
- A non-OK status from `delete` is reported as `false`, not raised.

`HTTP_OK` is defined in `iris_sdk/utils/rest.py`, which is not part of this
model; it is taken to be 200.

## Model

| member | source | states |
|---|---|---|
| Trim.StripLeft | iris_sdk/client.py:44 | `lstrip('/')`: the input is a run of '/' followed by the result, and the result does not start with '/' |
| Trim.StripRight | iris_sdk/client.py:44-46 | `rstrip('/')`: the input is the result followed by a run of '/', and the result does not end with '/' |
| Trim.StripLeftUnique | iris_sdk/client.py:44 | any split into a leading '/' run and a rest not starting with '/' is the one `lstrip` returns |
| Trim.StripRightUnique | iris_sdk/client.py:44-46 | any split into a rest not ending with '/' and a trailing '/' run is the one `rstrip` returns |
| Trim.StripLeftIdempotent | iris_sdk/client.py:44 | stripping leading slashes twice is the same as once |
| Trim.StripRightIdempotent | iris_sdk/client.py:44-46 | stripping trailing slashes twice is the same as once |
| Trim.StripLeftEmptyIff | iris_sdk/client.py:44 | `lstrip('/')` gives the empty string exactly when the input is all slashes |
| Trim.StripRunEnds | iris_sdk/client.py:44 | `lstrip('/').rstrip('/')` ignores any slash runs added at either end |
| Trim.Strip | iris_sdk/client.py:44 | `lstrip('/').rstrip('/')`: no '/' at either end of the result, and the result is empty exactly when the input is all slashes |
| Trim.StripIsSlice | iris_sdk/client.py:44 | the stripped section is one contiguous slice of the input, with only '/' before and after it |
| Trim.StripIdempotent | iris_sdk/client.py:44 | stripping both ends twice is the same as once |
| IrisClient.SectionPath | iris_sdk/client.py:42-44 | `_section`: empty exactly when the section is absent or made only of '/', otherwise free of '/' at both ends and no longer than the section |
| IrisClient.GetUri | iris_sdk/client.py:38-49 | the URI never ends with '/', starts with the base URL minus its trailing slashes, equals that base when the section is absent, empty or all slashes, and otherwise continues with exactly one '/' and the section minus its end slashes |
| IrisClient.SectionSlashesIrrelevant | iris_sdk/client.py:42-47 | adding slashes before or after the section does not change the URI |
| IrisClient.UrlSlashesIrrelevant | iris_sdk/client.py:46-47 | adding slashes at the end of the base URL does not change the URI |
| IrisClient.SectionPathSameUri | iris_sdk/client.py:42-47 | passing the already trimmed section gives the same URI as the original section |
| IrisClient.GetUriIdempotent | iris_sdk/client.py:46-49 | a composed URI used as the base URL with no section comes back unchanged |
| IrisClient.InteriorSlashesKept | iris_sdk/client.py:44-47 | a section with no slash at either end is appended verbatim after one '/', inner slashes included |
| IrisClient.DocstringExample | iris_sdk/client.py:40-47 | base `h` + slash run and section slash run + `b` + slash run give `h/b`, not `h` as the docstring says |
| IrisClient.Delete | iris_sdk/client.py:21-26 | one DELETE to `get_uri(section)` with `(username, password)` and the given params, no body; the result is true exactly when the response status is `HTTP_OK`, and every status yields a boolean |
| IrisClient.Get | iris_sdk/client.py:28-36 | one GET to `get_uri(section)` with the credentials and params; returns the status code when `return_status` is set and the body text otherwise |
| IrisClient.GetFlavoursAgree | iris_sdk/client.py:28-36 | both values of `return_status` send the identical request and report the status and the content of the same response |
| IrisClient.Post | iris_sdk/client.py:51-54 | one POST to `get_uri(section)` with the credentials, params and body; the transport's response is returned as is |
| IrisClient.Put | iris_sdk/client.py:56-60 | one PUT to `get_uri(section)` with the credentials, params and body; the transport's response is returned as is |
| IrisClient.VerbsShareTarget | iris_sdk/client.py:21-60 | `delete`, `get`, `post` and `put` send requests that agree on URI, credentials and params and differ only in the verb and the body |
| TelephoneNumber.Id | iris_sdk/models/data/telephone_number.py:8-10 | reading `id` yields `full_number`, the same value `telephone_number` yields |
| TelephoneNumber.TelephoneNumber | iris_sdk/models/data/telephone_number.py:22-24 | reading `telephone_number` yields `full_number` |
| TelephoneNumber.LastModifiedDate | iris_sdk/models/data/telephone_number.py:15-17 | reading `last_modified_date` yields `last_modified` |
| TelephoneNumber.SetId | iris_sdk/models/data/telephone_number.py:8-13 | after `id = x`, both `id` and `telephone_number` read `x`, and `last_modified` and the other attributes are unchanged |
| TelephoneNumber.SetTelephoneNumber | iris_sdk/models/data/telephone_number.py:22-27 | after `telephone_number = x`, both `telephone_number` and `id` read `x`, and `last_modified` and the other attributes are unchanged |
| TelephoneNumber.SetLastModifiedDate | iris_sdk/models/data/telephone_number.py:15-20 | after `last_modified_date = x`, it and `last_modified` read `x`, while `full_number` (so `id` and `telephone_number`) and the other attributes are unchanged |
| TelephoneNumber.AliasesAgree | iris_sdk/models/data/telephone_number.py:8-27 | `id` and `telephone_number` both read `full_number`, `last_modified_date` reads `last_modified`, and writing back what an alias reads leaves the record unchanged |
| TelephoneNumber.Run | iris_sdk/models/data/telephone_number.py:6-27 | no sequence of alias or slot assignments changes the other attributes of the record |
| TelephoneNumber.RunReadsLastWrite | iris_sdk/models/data/telephone_number.py:8-27 | in every reachable record `id` equals `telephone_number`, both read the last value written through `id`, `telephone_number` or `full_number`, and `last_modified_date` reads the last date written |

## Left out

- `Client.__init__` and `Config`: loading the URL, account id and credentials
  from arguments, a file or the environment is configuration I/O; the model
  takes a `Config` record as given, with `url` as a plain string.
- `RestClient.request`: the network call is the `transport` parameter, any
  total function from a request to a response; `RestClient` itself is not part
  of this model.
- IrisClient.Get: the body is modelled as already decoded text; the UTF-8 decoding
  of `response.content` and its failure on invalid bytes are not modelled.
- Exceptions raised by the transport propagate unchanged from every verb; the
  transport parameter is total and does not represent them.
- Positional versus keyword passing of `url`, `auth` and `params` to the
  transport is not distinguished; every verb's request carries the same fields.
- The `config` property of `Client` is a plain accessor and has no member.
- The other fields of the telephone-number map (`TelephoneNumberMap`) and the
  generic `BaseData` serialise/populate engine: they are not part of this
  model; the map's other attributes are the opaque `rest` component.
