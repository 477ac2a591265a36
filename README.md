# Rivet graph editor commands and Pinecone request shaping, in Dafny

This project models two sequential pieces of the Rivet visual-programming tool and proves
properties of them.

1. **The graph editor's commands** (`GraphBuilder.tsx`). The editor holds a node list, a
   connection list and the id of the selected node. Its commands append a node at a canvas
   position, delete a node and every connection touching it, duplicate a node 20 units
   down and to the right, and change the selection. A context-menu item id (`Add:<type>`,
   `Delete:<id>`, `Edit:<id>`, `Duplicate:<id>`) picks one of them. The state is the class
   `GraphBuilder.GraphEditor`. Its `seq` fields are reassigned by methods whose
   postconditions give the whole new state. The list operations the commands use (the
   array `findIndex`, `find`, `splice` and `filter`) are functions in `GraphModel`. Lemmas
   show which node a removal takes out and that both lists keep their order. They also cover
   referential integrity and unique ids.
2. **The Pinecone vector-store client** (`PineconeVectorDatabase.ts`) without its network
   calls. It covers:
   - the normalisation of a collection reference into an origin and a namespace
     (`CollectionUrl`);
   - the lowercase base16 encoding (section 8 of RFC 4648) of a SHA-256 digest (`Hex`);
   - the default id of a stored vector;
   - the JSON bodies of the upsert and query requests;
   - the mapping of a query reply into an `object[]` value (`Pinecone`).

   The reply to each request is an input. Each body-building function is proved against a
   reader of that body (`ReadUpsert`, `ReadQuery`), which gets back exactly what was put in.

Modules: `Wrappers` (Option, Result), `Json` (the JSON-shaped values used for node
configuration and request bodies), `GraphModel`, `GraphBuilder`, `Hex`, `CollectionUrl`,
`Pinecone`.

Things supplied from outside the model:
- `nodeFactory` is a function parameter `factory: NodeType -> ChartNode`. The editor
  relies on it for a node of the requested type with an id not yet in use
  (`GraphBuilder.FreshFactory`).
- The canvas position of an `Add:` command is an input.
- SHA-256 (FIPS 180-4) of a string's UTF-8 bytes is a parameter
  `digest: string -> Digest`, where a `Digest` is 32 bytes.
- JavaScript's number-to-string formatting is a parameter `formatNumber: real -> string`.
- Both sit in `Pinecone.Runtime`.

## Model

| member | source | states |
|---|---|---|
| GraphModel.FindIndex | packages/app/src/components/GraphBuilder.tsx:41 | the result is -1 exactly when no node has the id; otherwise it is the position of the first node with the id |
| GraphModel.FindNode | packages/app/src/components/GraphBuilder.tsx:74 | returns nothing exactly when no node has the id; otherwise the first node with that id |
| GraphModel.WithoutFirst | packages/app/src/components/GraphBuilder.tsx:41-46 | no match: the list is unchanged. A match: the nodes before the first match are kept at their positions, and every later node moves up one place. So exactly one node goes, every node with another id stays, and none is added |
| GraphModel.Detached | packages/app/src/components/GraphBuilder.tsx:49 | a connection is kept if and only if it was in the list and neither endpoint is the removed id |
| GraphModel.WithoutFirstReinserted | packages/app/src/components/GraphBuilder.tsx:41-45 | when some node has the id, putting the first such node back at its index rebuilds the original list. Only that node is taken out, and the others keep their order |
| GraphModel.DetachedAppend | packages/app/src/components/GraphBuilder.tsx:49 | filtering distributes over concatenation, so kept connections stay in their original order |
| GraphModel.DetachedUntouched | packages/app/src/components/GraphBuilder.tsx:49 | a list in which no connection touches the id is returned unchanged |
| GraphModel.DetachedIdempotent | packages/app/src/components/GraphBuilder.tsx:49 | removing the same node's connections twice is the same as once |
| GraphModel.RemovePreservesIntegrity | packages/app/src/components/GraphBuilder.tsx:40-50 | if every connection endpoint names an existing node before a removal, that still holds after it, and no connection refers to the removed id |
| GraphModel.RemoveUniqueLeavesNoTrace | packages/app/src/components/GraphBuilder.tsx:41-45 | with unique ids, the removed id is gone from the node list and ids stay unique |
| GraphModel.AppendPreservesIntegrity | packages/app/src/components/GraphBuilder.tsx:35 | appending a node never creates a dangling connection, and an unused id keeps ids unique |
| GraphModel.FindAppendedFresh | packages/app/src/components/GraphBuilder.tsx:83-84 | a node appended with an unused id is the node found under that id |
| GraphBuilder.ParseMenuItem | packages/app/src/components/GraphBuilder.tsx:53-87 | each command kind is chosen exactly when its prefix (`Add:`, `Delete:`, `Edit:`, `Duplicate:`) starts the id; nothing is chosen when none does; the prefix followed by the payload rebuilds the id |
| GraphBuilder.PrefixesExclusive | packages/app/src/components/GraphBuilder.tsx:54-72 | no id carries two of the four prefixes, so at most one action runs |
| GraphBuilder.MenuItemRoundTrip | packages/app/src/components/GraphBuilder.tsx:54-73 | the payload is the text after the 4, 7, 5 or 10 prefix characters: writing a command as an id and parsing it gives the command back |
| GraphBuilder.Placed | packages/app/src/components/GraphBuilder.tsx:30-33 | the new node has the given x and y and is otherwise the factory's node |
| GraphBuilder.Copied | packages/app/src/components/GraphBuilder.tsx:76-82 | the copy keeps the new node's id, title and type; its data is the source's data; its x and y are the source's plus 20 |
| GraphBuilder.GraphEditor.constructor | packages/app/src/components/GraphBuilder.tsx:20-22 | the editor starts from the given nodes, connections and selection |
| GraphBuilder.GraphEditor.SelectedChartNode | packages/app/src/components/GraphBuilder.tsx:101 | returns nothing exactly when there is no selection or no node has its id; otherwise the first node with the selected id |
| GraphBuilder.GraphEditor.AddNode | packages/app/src/components/GraphBuilder.tsx:29-38 | appends exactly one node of the requested type at the position and leaves earlier nodes and the connections unchanged; the new node becomes selected; unique ids and referential integrity are preserved |
| GraphBuilder.GraphEditor.RemoveNode | packages/app/src/components/GraphBuilder.tsx:40-51 | the new node list is `WithoutFirst` of the old one, and putting the removed node back at its index rebuilds the old list. So only the first node with the id is deleted, or none, and the others keep their order. Drops every connection touching the id either way and keeps the others in order; selection unchanged; integrity preserved; a removed selected node is no longer found |
| GraphBuilder.GraphEditor.DuplicateNode | packages/app/src/components/GraphBuilder.tsx:72-86 | an unknown id changes nothing; otherwise appends one copy (same type and data, shifted by 20) and selects it; connections and existing nodes are untouched |
| GraphBuilder.GraphEditor.SelectNode | packages/app/src/components/GraphBuilder.tsx:89-91 | the selection becomes the node's id; nodes and connections unchanged |
| GraphBuilder.GraphEditor.ContextMenuItemSelected | packages/app/src/components/GraphBuilder.tsx:53-87 | runs exactly the parsed command. `Edit:` changes only the selection. An unrecognised id changes nothing. Integrity and unique ids are preserved |
| Hex.ToString16 | packages/core/src/plugins/pinecone/PineconeVectorDatabase.ts:22 | `toString(16)` gives at least one lowercase hex digit, and exactly one for values below 16, where it is that value's digit |
| Hex.ToString16Denotes | packages/core/src/plugins/pinecone/PineconeVectorDatabase.ts:22 | the digits of `toString(16)`, read most significant first, denote the number, and there is no leading zero |
| Hex.PadStart | packages/core/src/plugins/pinecone/PineconeVectorDatabase.ts:22 | `padStart` reaches the target length by prefixing fill characters and keeps the string as its suffix |
| Hex.ByteToHex | packages/core/src/plugins/pinecone/PineconeVectorDatabase.ts:22 | every byte becomes exactly two lowercase hex digits, zero-padded, high digit first |
| Hex.Encode | packages/core/src/plugins/pinecone/PineconeVectorDatabase.ts:19-22 | the output is twice as long as the input |
| Hex.EncodeAt | packages/core/src/plugins/pinecone/PineconeVectorDatabase.ts:22 | byte i is encoded at positions 2i and 2i+1 |
| Hex.EncodeIsLowerHex | packages/core/src/plugins/pinecone/PineconeVectorDatabase.ts:22 | the output holds only lowercase hex digits |
| Hex.DecodeEncode | packages/core/src/plugins/pinecone/PineconeVectorDatabase.ts:19-22 | decoding the hex string gives back the bytes |
| Hex.EncodeDecode | packages/core/src/plugins/pinecone/PineconeVectorDatabase.ts:19-22 | a string that decodes is the encoding of its decoding (the encoding is canonical) |
| Hex.Sha256Hex | packages/core/src/plugins/pinecone/PineconeVectorDatabase.ts:11-24 | the hex digest is 64 lowercase hex digits that decode to the digest of the message |
| CollectionUrl.Normalize | packages/core/src/plugins/pinecone/PineconeVectorDatabase.ts:117-119 | a string with `http://` or `https://` is kept; any other gets `https://` in front; the result always has a scheme |
| CollectionUrl.NormalizeIdempotent | packages/core/src/plugins/pinecone/PineconeVectorDatabase.ts:117-119 | normalising twice is normalising once |
| CollectionUrl.ParseAuthorityAndPath | packages/core/src/plugins/pinecone/PineconeVectorDatabase.ts:122 | accepts exactly when some non-empty prefix, not starting with a port's `:` and free of forbidden domain code points (the C0 controls, U+007F and the forbidden host code points other than `:`), ends at the end of the string or at `/`, `?` or `#`. That prefix is the host. The pathname starts with `/` and holds no query or fragment. It is what follows the host, or `/` when nothing does |
| CollectionUrl.ParseUrl | packages/core/src/plugins/pinecone/PineconeVectorDatabase.ts:121-125 | an `https://` string is parsed after its scheme as `https:`; any other `http://` string as `http:`; a string with neither scheme is refused. A parsed URL's protocol matches the string's scheme, and `protocol//host` is a prefix of the string |
| CollectionUrl.GetCollection | packages/core/src/plugins/pinecone/PineconeVectorDatabase.ts:114-136 | fails exactly when the normalised string does not parse. The host is exactly the parsed URL's `protocol` + `//` + `host`. It is an origin (scheme, `//`, an authority without `/`) and a prefix of the normalised string. There is no namespace exactly when the pathname is `/`; otherwise the namespace is the pathname without its leading slash, non-empty, and host + `/` + namespace is a prefix of the normalised string |
| CollectionUrl.NamespaceFollowsHost | packages/core/src/plugins/pinecone/PineconeVectorDatabase.ts:127-133 | `protocol//host` is an origin and a prefix of the URL; so is origin + `/` + pathname without its slash |
| CollectionUrl.BareHostWithNamespace | packages/core/src/plugins/pinecone/PineconeVectorDatabase.ts:117-133 | one example: `ix/ns` gives host `https://ix` and namespace `ns` |
| CollectionUrl.HttpOriginWithoutNamespace | packages/core/src/plugins/pinecone/PineconeVectorDatabase.ts:117-135 | one example: `http://h` keeps its scheme and has no namespace |
| CollectionUrl.SpaceInHostIsRejected | packages/core/src/plugins/pinecone/PineconeVectorDatabase.ts:121-125 | one example: `a b` is not a URL, so the collection is refused |
| CollectionUrl.ControlInHostIsRejected | packages/core/src/plugins/pinecone/PineconeVectorDatabase.ts:121-125 | one example: a host with the control character U+0001 in it is not a URL, so the collection is refused |
| CollectionUrl.EmptyHostBeforePortIsRejected | packages/core/src/plugins/pinecone/PineconeVectorDatabase.ts:121-125 | one example: `:80` has no host before its port, so the collection is refused |
| Pinecone.Message | packages/core/src/plugins/pinecone/PineconeVectorDatabase.ts:61-63 | a refused collection's message starts with "Incorrectly formatted Pinecone collection"; a service error's is "Pinecone error: " followed by the reply text |
| Pinecone.Join | packages/core/src/plugins/pinecone/PineconeVectorDatabase.ts:37 | joining nothing gives the empty string; otherwise the first part starts the result |
| Pinecone.SplitJoin | packages/core/src/plugins/pinecone/PineconeVectorDatabase.ts:37 | pieces without a comma are recovered from their comma-joined text, so the hashed key determines the formatted components |
| Pinecone.VectorKey | packages/core/src/plugins/pinecone/PineconeVectorDatabase.ts:37 | the key is the comma-join of the formatted components. The empty vector's key is the empty string. Splitting it at commas gives back every formatted component, in order, when none contains a comma. A one-component vector's key is that component's formatting |
| Pinecone.EffectiveId | packages/core/src/plugins/pinecone/PineconeVectorDatabase.ts:36-38 | a non-empty id is used unchanged. A missing or empty id is replaced by 64 lowercase hex digits that decode to the digest of the vector's key. The id is never empty |
| Pinecone.WithOptions | packages/core/src/plugins/pinecone/PineconeVectorDatabase.ts:52 | the options add a `namespace` field exactly when a namespace is present, and change no other field |
| Pinecone.UpsertBody | packages/core/src/plugins/pinecone/PineconeVectorDatabase.ts:42-53 | reading the body back gives exactly one vector with the given id, values and data, plus the namespace when present |
| Pinecone.QueryBody | packages/core/src/plugins/pinecone/PineconeVectorDatabase.ts:75-80 | reading the body back gives the vector, `topK = k`, `includeMetadata = true`, plus the namespace when present |
| Pinecone.UpsertRequest | packages/core/src/plugins/pinecone/PineconeVectorDatabase.ts:33-59 | fails, with the collection error, exactly when the collection is refused. Otherwise it posts to host + `/vectors/upsert` a body that reads back as the effective id, values, data and namespace |
| Pinecone.QueryRequest | packages/core/src/plugins/pinecone/PineconeVectorDatabase.ts:66-86 | fails, with the collection error, exactly when the collection is refused. Otherwise it posts to host + `/query` a body that reads back as the values, k and namespace |
| Pinecone.Store | packages/core/src/plugins/pinecone/PineconeVectorDatabase.ts:33-64 | succeeds exactly when the collection is accepted and the status is 200. A refused collection gives the collection error before anything is sent. Another status is a service error with the reply text |
| Pinecone.Entry | packages/core/src/plugins/pinecone/PineconeVectorDatabase.ts:104 | an entry has exactly the fields `id` and `data`, taken from the match |
| Pinecone.NearestNeighbors | packages/core/src/plugins/pinecone/PineconeVectorDatabase.ts:66-106 | succeeds exactly when the collection is accepted and the status is 200. On success the value has type `object[]` and one `{id, data}` entry per match, in match order. A collection error or a service error otherwise |
| Pinecone.ScoresDropped | packages/core/src/plugins/pinecone/PineconeVectorDatabase.ts:102-105 | replies that differ only in scores give the same result |

## Left out

- React rendering, Recoil hooks, `useStableCallback`, `NodeCanvas`, `NodeEditorRenderer` and `clientToCanvasPosition` are UI plumbing. The canvas position is an input, and the optional-call `setNodes?.` setters are taken to be present.
- `nodeFactory`'s id generation and default data are a foreign call. They are the `factory` parameter, assumed to keep the type and give an unused id.
- Canvas coordinates are JavaScript floats. They are integers here, because only the +20 offset matters.
- `visualData` is modelled with `x` and `y` only. Other fields that the duplicate's spread would copy are not represented.
- Node `data` is a JSON object in every Rivet node type, and `{ ...node.data }` is a copy of it. The model's `Json` type also admits other values; for those the copy keeps the value, where a spread would not. Sharing of nested objects between the copy and the source (aliasing) is not modelled.
- `fetch`, HTTP headers, the API key read in the constructor (used only in headers), `response.json()` and `response.text()`, and JSON serialisation (including key order) are network I/O. The status, the reply text and the parsed matches are inputs (`Pinecone.Reply`).
- `coerceType(collection, 'string')` belongs to the engine's value model, which is not part of this model. The collection is taken as a string and a vector as its `seq<real>` of components. The stored `data` is a `DataValue` whose `.value` is sent; `UpsertRequest` and `Store` take that value (a `Json`) directly, and its type tag is not modelled.
- `crypto.subtle.digest` (SHA-256) and the UTF-8 `TextEncoder` are foreign. They are the `digest` parameter.
- JavaScript number formatting in `vector.value.join(',')` is float formatting. It is the `formatNumber` parameter.
- CollectionUrl.ParseUrl: a simplified split, not the full WHATWG URL parser. Percent-encoding, IDNA, lower-casing, default-port removal, IPv6 literals, user info, backslashes, and the removal of tabs and newlines are not modelled. Neither is the skipping of extra slashes. A host with `@`, `[`, `]`, a tab, a newline or another control character is refused here. Further differences from `new URL`:
  - Dot segments are not resolved. `ix/.` has namespace `.` here, while `new URL` gives pathname `/` and no namespace. `ix/ns/..` has namespace `ns/..` here.
  - Ports are not validated. `ix:abc` is accepted here with host `https://ix:abc`, while `new URL` throws.
  - An empty port is kept. `ix:` gives host `https://ix:` here and `https://ix` in `new URL`.
  - Leading and trailing spaces and control characters are not trimmed. `ix ` is refused here and accepted by `new URL`.
  - IPv4 hosts are not parsed. `1.2.3.999` is accepted here and refused by `new URL`.
  - `%` in a host is accepted as it stands. `ix%` is accepted here and refused by `new URL`, and a valid escape such as `%41` is decoded by `new URL` but kept here.
- Pinecone.QueryRequest: `k` (also taken by `Pinecone.NearestNeighbors`) is a JavaScript number, so it may be fractional or non-finite. It is an `int` here.
- Pinecone.Message: the text of the URL parser's own error after the colon is runtime-specific. It is fixed as "Invalid URL".
- `store` and `nearestNeighbors` are asynchronous; each is a function of its reply. `Store` returns the accepted request in place of `undefined`.
- `packages/core/src/model/NodeImpl.ts` declares an abstract node class and context types with no behaviour; only its node shape (id, type, title, visualData, data) is used.
- `packages/app/src/state/settings.ts` holds persisted configuration atoms with no logic, and is not part of this model.
