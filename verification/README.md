# SalsasWings in Dafny

A model of the core of SalsasWings, a small wings shop system. It has two parts:

- a WhatsApp chat bot (`server.js`) that runs a six-step order dialogue per sender;
- five admin pages of the React front end:
  - the kitchen dashboard (`Landing.jsx`);
  - the production counters and expenses page (`Gestion.jsx`);
  - the menu settings page (`Configuracion.jsx`);
  - the manual orders page (`PedidosManuales.jsx`);
  - the statistics page (`Estadisticas.jsx`).

Every state change is a pure function from the old state, plus the event, to the new state. React state setters become returned values. HTTP requests and replies become parameters and results.

Modules:

- `Wrappers`: `Option`.
- `Seqs`: `Filter` (JavaScript's `filter`), subsequences, `RemoveAt`, and a stable insertion sort `SortBy` with its sortedness and permutation lemmas.
- `Text`:
  - `Trim`, over JavaScript's whitespace set;
  - `Split` and `Join` on one separator character;
  - decimal digit strings.
- `Orders`: the order documents the pages read from `/pedidos-dia`, and `AllCombos`, the combos in the order the pages' nested `forEach` loops visit them.
- `Webhook` (`server.js`):
  - the verification handshake;
  - the session map and the `switch` on the session step;
  - `Handle`, one POST event;
  - `Run`, a sequence of messages;
  - the session invariant, and a full six-message dialogue proved end to end.
- `Gestion`: `calcularTotales` as a loop proved against reference counts, and `handleAddExpense`, as written and as intended.
- `Landing`:
  - `toggleStatus`;
  - the done and pending counts;
  - the pending-first table order;
  - `parseTime` in minutes after midnight;
  - the delivery-time sort;
  - `calcularHoraPreparacion`.
- `Configuracion`: the three array handlers and `handleChangePrecio`.
- `PedidosManuales`: `handleAddOrder` (as written and corrected) and `handleDeleteOrder`.
- `Estadisticas`:
  - `ingresosTotales`;
  - the summary figures;
  - the `contadorProductos` counter as an insertion-ordered list of entries;
  - `topProducts`.

## Model

| member | source | states |
|---|---|---|
| `Webhook.Verify` | server.js:15-25 | The handshake is accepted, echoing the challenge, exactly when the mode is "subscribe" and the token equals the configured one, both possibly absent; otherwise the answer is 403. |
| `Webhook.UnsetTokenAcceptsMissingToken` | server.js:10-20 | With no token configured, a subscribe request carrying no token passes, since absent compares equal to absent. |
| `Webhook.InputText` | server.js:42 | The dialogue text is the trimmed body, or "" for a message without a text body; it has no surrounding whitespace. |
| `Webhook.Handle` | server.js:33-49 | An event without a message changes nothing and sends nothing. A message gets exactly one reply, addressed to its sender, and no other sender's session changes. |
| `Webhook.Receive` | server.js:45-95 | The sender gets one reply. Every other key of the session map keeps its presence and its session. |
| `Webhook.Post` | server.js:97-112 | The sessions change before the send. The status is 200 for no message or a successful send, and 500 when the send fails, without undoing the session change. |
| `Webhook.FirstContact` | server.js:45-56 | A sender without a session is welcomed whatever the text, and is stored at step 2 with no answers. |
| `Webhook.StoresAnswer` | server.js:58-81 | At steps 2 to 5 the trimmed text, empty or not, becomes that step's answer. The session moves one step on and keeps its other answers, and the reply is the next question. |
| `Webhook.FinalStepSummarizes` | server.js:83-89 | At step 6 the reply is the summary of the four stored answers and the address text, and the session is deleted. |
| `Webhook.UnknownStepResets` | server.js:91-94 | A step outside 1..6 gets the error reply and its session is deleted. |
| `Webhook.AdvanceKeepsWellFormed` | server.js:52-95 | One step from a new or well-formed session leaves either no session or a well-formed one. |
| `Webhook.HandlePreservesInvariant` | server.js:45-95 | Every event keeps every stored session well formed: at steps 2 to 6, holding exactly the answers of the steps passed. |
| `Webhook.ReplyFollowsDialogue` | server.js:52-95 | Under the invariant the default branch is never reached. The reply is the next question, or the summary at step 6. |
| `Webhook.SummaryHasAllAnswers` | server.js:83-86 | Under the invariant, all four stored answers are present when the summary is built, so it never prints "undefined". |
| `Webhook.Run` | server.js:31-95 | A run of messages gets one reply per message, each addressed to that message's sender. |
| `Webhook.RunLeavesOthersAlone` | server.js:45-93 | Messages from other senders, however interleaved, never touch a given sender's session. |
| `Webhook.DialogueStep` | server.js:52-95 | Message k of a dialogue moves the sender's session from its state after k messages to its state after k+1, with reply k. |
| `Webhook.DialogueRest` | server.js:52-95 | From the state after k messages, the remaining messages get the remaining replies and leave the map as before the dialogue. |
| `Webhook.FullDialogue` | server.js:45-95 | Six messages from a new sender get the welcome, the four questions, and a summary of exactly texts 2 to 6. The session map ends as it began. |
| `Text.Trim` | server.js:42 | The result has no surrounding whitespace. It is the input with only whitespace removed from its front and back. |
| `Text.TrimOfFramed` | server.js:42 | Trimming a text framed by whitespace gives the tight text inside the frame. |
| `Text.TrimIdempotent` | server.js:42 | Trimming twice is trimming once. |
| `Text.JoinSplit` | frontend/src/Pages/Landing/Landing.jsx:29 | Splitting at a separator and joining the pieces back gives the original text. |
| `Text.SplitJoin` | frontend/src/Pages/Landing/Landing.jsx:29 | Splitting the join of separator-free pieces gives the pieces back. |
| `Text.TwoDigitsRoundTrip` | frontend/src/Pages/Landing/Landing.jsx:29 | A two-digit rendering of a number below 100 reads back as that number. |
| `Orders.AllCombosAppend` | frontend/src/Pages/Gestion/Gestion.jsx:48-49 | The combos of two order lists are visited list by list. |
| `Gestion.CalcularTotales` | frontend/src/Pages/Gestion/Gestion.jsx:38-72 | The counters equal reference counts over all combos: combos, fries and boxes are the combo count, wings 10 per combo, jars equal sauces. Sodas ("Coca-Cola") and beers ("Corona") together never exceed the combos. |
| `Gestion.DistinctDrinksBounded` | frontend/src/Pages/Gestion/Gestion.jsx:56-57 | Combos counted for two different drinks are disjoint. |
| `Gestion.AddExpenseAsWritten` | frontend/src/Pages/Gestion/Gestion.jsx:75-95 | As written, a complete form sends the PUT request with its description and amount text, and an incomplete one sends nothing. Either way the page is left as it was: the handler's own `res.json()` throws on the body `get` already parsed (frontend/src/lib/api.js:10-22), and the `catch` changes nothing. |
| `Gestion.AddExpense` | frontend/src/Pages/Gestion/Gestion.jsx:75-95 | As intended, an incomplete form or a failed save changes nothing. Otherwise the saved expense goes in front of the unchanged list and the form is cleared. |
| `Gestion.SavedExpenseNeverShown` | frontend/src/Pages/Gestion/Gestion.jsx:78-94 | With a complete form and a saved expense, the intended handler lists the expense. The handler as written sends the request but still shows the old list. |
| `Gestion.AddExpenseOnce` | frontend/src/Pages/Gestion/Gestion.jsx:89-90 | A successful add clears the form, so an immediate second add changes nothing. |
| `Landing.ToggleStatus` | frontend/src/Pages/Landing/Landing.jsx:43-51 | Orders with the id flip their done flag and get the label of the new flag, and nothing else changes. Every other order stays in place. |
| `Landing.ToggleTwice` | frontend/src/Pages/Landing/Landing.jsx:43-51 | Toggling twice restores every done flag, and every order whose label matched its flag. |
| `Landing.CountsAddUp` | frontend/src/Pages/Landing/Landing.jsx:53-55 | The pending count, computed as a difference, is the number of orders not done, so it is never negative. The two counts add up to the day's orders. |
| `Landing.OrdenadosIsPermutation` | frontend/src/Pages/Landing/Landing.jsx:58-61 | The table order is a permutation of the orders. |
| `Landing.OrdenadosPendingFirst` | frontend/src/Pages/Landing/Landing.jsx:58-61 | In the table the first rows, as many as the pending count, are pending and the rest are done. Every pending row comes before every done row. |
| `Landing.OrdenadosKeepsGroupOrder` | frontend/src/Pages/Landing/Landing.jsx:58-61 | Each of the two groups keeps the loading order. |
| `Landing.ParseTime` | frontend/src/Pages/Landing/Landing.jsx:27-33 | A missing or empty time is midnight (0), and no time is negative. |
| `Landing.ParseClockTime` | frontend/src/Pages/Landing/Landing.jsx:27-33 | "HH:MM" with a valid hour and minute reads as HH*60+MM minutes. |
| `Landing.HourOnly` | frontend/src/Pages/Landing/Landing.jsx:29-31 | A time with no colon, such as "8", reads as that many hours: the minutes default to 0. |
| `Landing.HourAndMinute` | frontend/src/Pages/Landing/Landing.jsx:29-31 | A time "H:M" with digit runs of any length, such as "8:30", reads as H hours and M minutes, an empty side counting as 0. |
| `Landing.ParseIgnoresOtherCharacters` | frontend/src/Pages/Landing/Landing.jsx:29 | Characters other than digits and colons are ignored. |
| `Landing.AllPartsDigits` | frontend/src/Pages/Landing/Landing.jsx:29 | After the filter, every colon-separated piece is a digit string, so `Number` never yields NaN. |
| `Landing.SortByDelivery` | frontend/src/Pages/Landing/Landing.jsx:14-18 | The loaded orders are a permutation of the fetched ones, sorted by parsed delivery time, earliest first. |
| `Landing.PreparationClock` | frontend/src/Pages/Landing/Landing.jsx:36-39 | The preparation time is a valid clock time exactly twenty minutes before the delivery time, modulo one day. |
| `Landing.ClockOfMinutes` | frontend/src/Pages/Landing/Landing.jsx:38-39 | A minute count, reduced modulo a day, gives an hour below 24 and a minute below 60 that name the same time of day. |
| `Landing.PreparationWrapsToPreviousDay` | frontend/src/Pages/Landing/Landing.jsx:36-39 | A delivery at 00:MM with MM below 20 is prepared at 23:(40+MM) of the previous day. |
| `Landing.PreparationClockAsWritten` | frontend/src/Pages/Landing/Landing.jsx:27-39 | As written there is no preparation time exactly when the delivery time is missing or empty. Otherwise it is the intended one. |
| `Landing.MissingTimeBreaksPreparation` | frontend/src/Pages/Landing/Landing.jsx:28 | A missing delivery time has no preparation time as written, but 23:40 as intended. |
| `Configuracion.ChangeArray` | frontend/src/Pages/Configuracion/Configuracion.jsx:25-29 | The edited row holds the new text, and every other row, list and price is unchanged. |
| `Configuracion.ChangeArrayUndo` | frontend/src/Pages/Configuracion/Configuracion.jsx:25-29 | Writing back a row's old text restores the settings. |
| `Configuracion.AddArrayItem` | frontend/src/Pages/Configuracion/Configuracion.jsx:31-33 | An empty row is appended, and the rest of the settings are unchanged. |
| `Configuracion.RemoveArrayItem` | frontend/src/Pages/Configuracion/Configuracion.jsx:35-38 | The row at the index is removed and the others keep their order. An index that names no row changes nothing. |
| `Configuracion.AddThenRemoveLast` | frontend/src/Pages/Configuracion/Configuracion.jsx:31-38 | Adding a row and then removing the last one restores the settings. |
| `Configuracion.ChangePrecio` | frontend/src/Pages/Configuracion/Configuracion.jsx:41-47 | The named price is set, possibly as a new key. Every other price and every list is unchanged. |
| `Configuracion.ChangePrecioLastWins` | frontend/src/Pages/Configuracion/Configuracion.jsx:41-47 | Of two edits to one price, the later one wins. |
| `Configuracion.ChangePrecioCommutes` | frontend/src/Pages/Configuracion/Configuracion.jsx:41-47 | Edits to different prices commute. |
| `PedidosManuales.DeleteOrder` | frontend/src/Pages/PedidosManuales/PedidosManuales.jsx:27-29 | The result keeps exactly the orders with a different id, in their order, and the form is untouched. |
| `PedidosManuales.DeleteAbsentId` | frontend/src/Pages/PedidosManuales/PedidosManuales.jsx:27-29 | Deleting an id no order has changes nothing. |
| `PedidosManuales.DeleteRemovesMatches` | frontend/src/Pages/PedidosManuales/PedidosManuales.jsx:27-29 | The list shrinks by exactly the number of orders with that id. |
| `PedidosManuales.DeleteOrderKeepsIdsUnique` | frontend/src/Pages/PedidosManuales/PedidosManuales.jsx:27-29 | Deleting keeps ids unique. |
| `PedidosManuales.AddOrderAsWritten` | frontend/src/Pages/PedidosManuales/PedidosManuales.jsx:16-25 | An incomplete form changes nothing. Otherwise the form's text is appended under id "length + 1" with the current date, and the form is cleared. |
| `PedidosManuales.AddAfterDeleteDuplicatesId` | frontend/src/Pages/PedidosManuales/PedidosManuales.jsx:5-29 | From the sample orders, deleting order 1 and adding one gives ids [2, 2]. Deleting 2 then removes both. |
| `PedidosManuales.MaxId` | frontend/src/Pages/PedidosManuales/PedidosManuales.jsx:19 | The largest id in use bounds every id and is 0 for an empty list. |
| `PedidosManuales.MaxIdIsAnId` | frontend/src/Pages/PedidosManuales/PedidosManuales.jsx:19 | With non-negative ids, the largest id belongs to an order. |
| `PedidosManuales.AddOrder` | frontend/src/Pages/PedidosManuales/PedidosManuales.jsx:16-25 | As written, except that the new id exceeds every id in use. |
| `PedidosManuales.AddOrderAgreesWithoutDeletes` | frontend/src/Pages/PedidosManuales/PedidosManuales.jsx:16-25 | On a list numbered 1, 2, …, the corrected add and the written one agree. |
| `PedidosManuales.AddOrderKeepsIdsUnique` | frontend/src/Pages/PedidosManuales/PedidosManuales.jsx:16-25 | The corrected add keeps ids unique after any deletions. |
| `Estadisticas.TotalsSumAppend` | frontend/src/Pages/Estadisticas/Estadisticas.jsx:30 | The revenue of two order lists together is the sum of their revenues. |
| `Estadisticas.MissingTotalsAddNothing` | frontend/src/Pages/Estadisticas/Estadisticas.jsx:30 | Orders without a total contribute 0. |
| `Estadisticas.TotalsSumNonNegative` | frontend/src/Pages/Estadisticas/Estadisticas.jsx:30 | The revenue is non-negative when no total is negative. |
| `Estadisticas.IngresosTotales` | frontend/src/Pages/Estadisticas/Estadisticas.jsx:30 | The left-to-right reduce equals the reference sum of the totals, a missing total counting as 0. |
| `Estadisticas.ComputeFigures` | frontend/src/Pages/Estadisticas/Estadisticas.jsx:27-30 | Every order counts as completed and none as pending, and the revenue is the sum of totals. |
| `Estadisticas.FiguresAgainstDashboard` | frontend/src/Pages/Estadisticas/Estadisticas.jsx:27-29 | The page's "all completed" figure agrees with the dashboard's done count exactly when every order is marked done. |
| `Estadisticas.ProductKey` | frontend/src/Pages/Estadisticas/Estadisticas.jsx:46 | A combo counts under its wing style, or "Desconocido" when that is missing or empty. |
| `Estadisticas.Bump` | frontend/src/Pages/Estadisticas/Estadisticas.jsx:47 | An increment keeps the names in place, or appends a new entry with count 1. |
| `Estadisticas.BumpSales` | frontend/src/Pages/Estadisticas/Estadisticas.jsx:47 | An increment adds one under its name and leaves every other count alone. |
| `Estadisticas.BumpTotal` | frontend/src/Pages/Estadisticas/Estadisticas.jsx:47 | An increment adds one to the total. |
| `Estadisticas.BumpNames` | frontend/src/Pages/Estadisticas/Estadisticas.jsx:47 | After an increment the names are the old ones plus the key. |
| `Estadisticas.BumpKeepsWellFormed` | frontend/src/Pages/Estadisticas/Estadisticas.jsx:47 | Names stay distinct and counts positive. |
| `Estadisticas.BumpKeepsCountsPositive` | frontend/src/Pages/Estadisticas/Estadisticas.jsx:47 | Every count stays at least 1. |
| `Estadisticas.TallyWellFormed` | frontend/src/Pages/Estadisticas/Estadisticas.jsx:43-49 | The counter has distinct names and positive counts. |
| `Estadisticas.TallySales` | frontend/src/Pages/Estadisticas/Estadisticas.jsx:43-49 | The count under each name is its number of occurrences. |
| `Estadisticas.TallyNames` | frontend/src/Pages/Estadisticas/Estadisticas.jsx:43-49 | The counter's names are exactly the names met. |
| `Estadisticas.TallyTotal` | frontend/src/Pages/Estadisticas/Estadisticas.jsx:43-49 | The counts add up to the number of combos visited. |
| `Estadisticas.SalesOfEntry` | frontend/src/Pages/Estadisticas/Estadisticas.jsx:47 | With distinct names, looking up an entry's name gives that entry's count. |
| `Estadisticas.ProductCounts` | frontend/src/Pages/Estadisticas/Estadisticas.jsx:43-49 | The counter has one entry per wing style met, holding that style's combo count. The counts total the number of combos. |
| `Estadisticas.Ranking` | frontend/src/Pages/Estadisticas/Estadisticas.jsx:57 | The ranking is a permutation of the products, by non-increasing sales. |
| `Estadisticas.RankingMembers` | frontend/src/Pages/Estadisticas/Estadisticas.jsx:51-57 | Every ranked product is a counter product, priced at 25000 per combo. |
| `Estadisticas.TopProducts` | frontend/src/Pages/Estadisticas/Estadisticas.jsx:51-58 | At most five products, exactly min(5, count), by non-increasing sales. Each is a counter product at the flat price, and none appears more often than in the counter. With five or fewer products, every product appears exactly once. |
| `Estadisticas.RankingPrefixSorted` | frontend/src/Pages/Estadisticas/Estadisticas.jsx:57-58 | A prefix of the ranking is in non-increasing sales and takes no product more often than the counter has it; the whole ranking takes each product exactly once per entry. |
| `Estadisticas.RankingPrefixMembers` | frontend/src/Pages/Estadisticas/Estadisticas.jsx:51-58 | Every product in a prefix of the ranking is a counter product priced at 25000 per sale. |
| `Estadisticas.OmittedSellNoMore` | frontend/src/Pages/Estadisticas/Estadisticas.jsx:51-58 | With more than five products, the top five and the rest partition the products. None of the rest sold more than the fifth. |
| `Seqs.FilterSplitsMultiset` | frontend/src/Pages/Landing/Landing.jsx:54-61 | Filtering by two complementary predicates splits a list's multiset in two. |
| `Seqs.FilterIsSubseq` | frontend/src/Pages/Landing/Landing.jsx:58-61 | A filter keeps its elements in their original order. |
| `Seqs.SortBySortsAndPermutes` | frontend/src/Pages/Landing/Landing.jsx:14-18 | The sort returns a permutation of its input, non-decreasing by the key. |
| `Seqs.RemoveAt` | frontend/src/Pages/Configuracion/Configuracion.jsx:36 | Filtering out one index removes that element and keeps the rest in order. An index that names no element removes nothing. |

## Left out

- HTTP, Express, axios, the Meta Graph API, `dotenv` and logging are not modelled.
  - Query parameters and the configured token are parameters.
  - Whether the reply was sent is a boolean parameter of `Webhook.Post`.
  - The body's nested `entry[0].changes[0].value.messages[0]` path is collapsed into an optional message.
  - A message that has a text property whose body is not a string is not modelled.
- A `sessions` key equal to an `Object.prototype` property name (such as `constructor`) finds an inherited value in the source. Senders are modelled as plain map keys.
- React rendering, `fetch` and the `/pedidos-dia`, `/gastos` and `/config` requests are not modelled. Loaded data is a parameter.
  - `Gestion.AddExpense` takes the back end's saved expense, or none for a failed request.
  - The manual order's date is a parameter `now`.
- `handleSave`, the loading flags and `alert` are not modelled. They only move data to and from the back end.
- The loaders of the production and settings pages never deliver data as written. `Gestion.jsx:24`, `Gestion.jsx:32`, `Configuracion.jsx:13` and `Configuracion.jsx:58` call `.json()` on the value `get` (frontend/src/lib/api.js:10-22) already parsed, and that call throws.
  - The production page never calls `calcularTotales`, so its counters stay 0, and it never shows the saved expenses.
  - The settings page stays on its load-error message (`Configuracion.jsx:70`), so no list or price handler can run, and saving fails the same way.
  - `Gestion.CalcularTotales` and the `Configuracion` handlers describe what these pages evidently intend to do with loaded data. The pages as written never receive that data. Only `handleAddExpense` has an as-written counterpart (`Gestion.AddExpenseAsWritten`, under Findings).
- Floating point is left out:
  - `gastoEstimado` and `gananciaNeta` (35 % of revenue);
  - `parseFloat` of the expense amount, which `Gestion.AddExpense` takes as already saved;
  - `toLocaleString` formatting.
- The revenue grouping by day of week is left out. It needs the `Date` of each order's `fecha`.
- `Landing.ParseTime`: a `Date` set to today's hours and minutes is modelled as the number of minutes after today's midnight.
  - Comparisons and differences are the same within one day.
  - Daylight-saving jumps are not modelled.
  - Minutes beyond 59 roll over, which this number also models.
  - The model's reading is exact only within the range JavaScript can represent. `Number` reads a digit run as a double, which is inexact beyond 2^53. `setHours` beyond the `Date` range (about 2.4e9 hours) gives an Invalid Date: the sort comparator then yields NaN and the preparation column shows "Invalid Date". The model reads any digit run as an exact unbounded count of minutes.
- `Landing.PreparationClock`: `toLocaleTimeString("es-CO", …)` formatting is left out. The result is the hour and minute pair.
- `Configuracion.ChangePrecio` takes the number `Number(value)` produces, as an integer.
  - Decimal or exponent inputs and the NaN of non-numeric text are not modelled.
  - Empty text, which gives 0, is covered as the amount 0.
- `Configuracion.ChangeArray` requires the index to name a row and the field to be an existing list. The page only renders inputs for rows of existing lists.
  - Writing past the end (which leaves holes) is not modelled.
  - A handler for a missing field (which throws on spreading `undefined`) is not modelled.
  - The same holds for the other two list handlers.
- Totals of the day's orders (`Orders.Order.total`) are integers or absent. `p.total || 0` on a non-numeric total is not modelled.
- `Estadisticas.Tally`: the model keeps every key in insertion order, as a fresh count. In the source the counter is a plain object:
  - it lists integer-like keys first, in ascending order;
  - `__proto__` is a special key;
  - a wing style named like an inherited property (`constructor`, `toString`, `hasOwnProperty`, `valueOf`, …) finds a function. `(contadorProductos[key] || 0) + 1` then concatenates the function's text with 1 instead of counting.
- `Estadisticas.Ranking`: the sort is a stable insertion sort. Its stability (ties keep the counter's order, as JavaScript's stable `sort` does) is not stated.
- `Landing.SortByDelivery`: likewise, stability of ties is not stated.
- Manual order totals typed into the form are kept as text (`PedidosManuales.Amount.Typed`), as the page stores them. The sample orders hold numbers.
- `Landing.ParseTime`: its own contract states only that a missing or empty time is 0 and that no time is negative. The value of a time text is stated by `Landing.HourOnly` (no colon), `Landing.HourAndMinute` (one colon, digit runs of any length), `Landing.ParseClockTime` (zero-padded "HH:MM") and `Landing.ParseIgnoresOtherCharacters` (other characters dropped). A text with a second colon is not stated: its third piece is ignored.
- `server.js` accepts any text at every step. It validates nothing, prices nothing and persists nothing, and neither does the model.
- A failed send reaches the `catch` in `server.js`, which answers 500. `Webhook.Post` models this.

## Findings

| source | as written | input that shows it | evidently intended | confidence | as-written member | corrected member |
|---|---|---|---|---|---|---|
| frontend/src/Pages/Landing/Landing.jsx:27-39 | For a missing or empty delivery time, `parseTime` returns the number `setHours` yields. `calcularHoraPreparacion` then calls `getTime` on that number, which throws while the dashboard renders (line 121). Nothing catches it, so the whole dashboard fails to render, not one row. | An order whose `horaEntrega` is absent or "" | Midnight delivery, prepared at 23:40 | not executed | `Landing.PreparationClockAsWritten` (with `Landing.MissingTimeBreaksPreparation`) | `Landing.PreparationClock` |
| frontend/src/Pages/PedidosManuales/PedidosManuales.jsx:16-29 | A new manual order gets id "number of orders + 1". After a delete, that id can already be in use, and deleting it then removes both orders. | From the two sample orders, delete id 1 and then add an order: the ids are [2, 2]. | A fresh id, above every id in use | not executed | `PedidosManuales.AddOrderAsWritten` (with `PedidosManuales.AddAfterDeleteDuplicatesId`) | `PedidosManuales.AddOrder` (with `PedidosManuales.AddOrderKeepsIdsUnique`) |
| frontend/src/Pages/Gestion/Gestion.jsx:75-95 | `get` (frontend/src/lib/api.js:10-22) already returns the parsed body, so `await res.json()` on it throws. The `catch` alerts and changes nothing, after the PUT has gone out. | Any complete form, whatever the back end answers | The saved expense listed first and the form cleared | not executed | `Gestion.AddExpenseAsWritten` (with `Gestion.SavedExpenseNeverShown`) | `Gestion.AddExpense` (with `Gestion.AddExpenseOnce`) |
