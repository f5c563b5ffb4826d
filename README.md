# Customer registration form: state model

The `App` component of the customer registration form (`src/App.tsx`) keeps
an in-memory list of customers (`users`), the identifier of the customer
being edited (`editingUserId`, null in create mode) and four text inputs
(name, phone number, email, city). Its handlers load the list from the
`clientes` API, submit the form (update in edit mode, create otherwise),
enter edit mode for a row and soft-delete a row; the table shows the
customers that are not flagged as deleted, in list order.

The model has two modules:

- `Customers` (`customers.dfy`): the `Customer` record and the three pure
  list transforms of the component, each a recursive function with lemmas
  about it. `ReplaceById` (the `users.map` of the edit branch) and
  `MarkDeleted` (the `users.map` of the soft delete) state their meaning
  position by position. `Visible` (the `filter` that yields the table
  rows) states which records are rows; the lemmas `VisibleAppend` and
  `VisibleSingle` fix their order.
- `Form` (`app.dfy`): the class `App` with the component's state as fields
  and the handlers as methods whose postconditions give the whole new state
  in terms of the old one and of the transforms above.

Behaviour the model keeps from the code:

- Edit mode is decided by truthiness (`IsEditing`): an empty-string id
  selects the create branch, and the create branch leaves `editingUserId`
  as it was.
- The record built by the edit branch has no `deleted` field, so it is
  not deleted; a record that was soft-deleted while being edited shows up
  again after the submit (`EditResurrectsDeleted`).
- The edit branch replaces every record with a matching id, not only the
  first.
- The soft delete sends nothing; the flagged records stay in the list.

## Model

| member | source | states |
|---|---|---|
| `Customers.ReplaceById` | src/App.tsx:38-47 | the list keeps its length and order; each record whose id matches becomes the replacement record and every other record is unchanged |
| `Customers.MarkDeleted` | src/App.tsx:76-77 | the list keeps its length and order; each record whose id matches keeps all its fields and has `deleted` set, every other record is unchanged |
| `Customers.Visible` | src/App.tsx:104 | a customer is a row exactly when it is in the list and not deleted; there are never more rows than records |
| `Customers.VisibleAppend` | src/App.tsx:104 | the rows of a concatenation are the rows of the first part followed by the rows of the second, i.e. the filter keeps list order |
| `Customers.VisibleSingle` | src/App.tsx:104 | a single record gives one row when it is not deleted and none when it is |
| `Customers.VisibleAllShown` | src/App.tsx:104 | a list with no deleted record (such as a freshly loaded one) is shown in full, one row per record |
| `Customers.AppendRows` | src/App.tsx:58 | appending a record leaves the existing rows as they were and adds that record as the last row unless it is flagged deleted |
| `Customers.MarkDeletedIdempotent` | src/App.tsx:77 | deleting the same id twice gives the same list as deleting it once |
| `Customers.MarkDeletedAbsent` | src/App.tsx:77 | deleting an id no record carries leaves the list unchanged |
| `Customers.DeleteHidesRows` | src/App.tsx:76-77 | after a delete no row carries the deleted id, every position keeps its id, and the list still has a record with that id exactly when it had one before |
| `Customers.DeleteRows` | src/App.tsx:77 | the rows after a delete are the rows before it without those carrying the deleted id, in the same order |
| `Customers.ReplaceByIdAbsent` | src/App.tsx:47 | replacing an id no record carries leaves the list unchanged |
| `Customers.EditResurrectsDeleted` | src/App.tsx:38-47 | when a record with the edited id was soft-deleted, the record the edit branch writes (which has no `deleted` field) is shown again, although no row with that id was shown before |
| `Form.IsEditing` | src/App.tsx:36 | the truthiness test of the edit id: null and the empty string select the create branch, any non-empty id selects the edit branch |
| `Form.Filled` | src/App.tsx:34 | the presence guard: an empty name, number, email or city fails it, and it passes when all four are non-empty |
| `Form.App.Rows` | src/App.tsx:104 | the rows the table renders are exactly the customers in the list that are not flagged deleted, never more than the list holds |
| `Form.App.constructor` | src/App.tsx:15-20 | the component starts with no customers, in create mode, with empty inputs |
| `Form.App.LoadRegister` | src/App.tsx:26-29 | the list becomes the array the API returned; nothing else changes |
| `Form.App.HandleSubmit` | src/App.tsx:31-66 | with any empty input nothing changes and no request is sent; in edit mode (non-empty id) a PUT of the id and the four inputs (without the `deleted` flag) is sent, the record built from them with `deleted` false replaces every record with the id and the form returns to create mode; otherwise a POST of the inputs is sent and the returned record is appended, leaving the edit id as it was; after either branch all four inputs are empty |
| `Form.App.HandleEdit` | src/App.tsx:68-74 | the edit id becomes the customer's id and the inputs take its name, phone, email and city; the list is unchanged |
| `Form.App.HandleDelete` | src/App.tsx:76-78 | the list becomes the soft-deleted list, no row carries the id afterwards, and a record with the id is still in the list if there was one before |

## Left out

- The HTTP client (`api.get`, `api.post`, `api.put`): its responses are parameters of `LoadRegister` and `HandleSubmit`, every call is taken to succeed, and `HandleSubmit` returns the request it sends instead of sending it. Rejected requests are not modelled; the code does not handle them.
- React mechanics (`useState`, `useEffect`, `useRef`): the state is plain fields, the load on mount is the explicit method `LoadRegister`, and the input references are taken to be mounted, so the `?.` and `!` null cases do not arise.
- Asynchrony: each handler runs atomically, so double submits, interleaved responses and the stale `users` captured by the edit and delete maps are not modelled.
- JSX rendering, markup, icons and styling; only the row filter is modelled, as `Customers.Visible` (the rows are `Form.App.Rows`).
- Browser input semantics (`type="number"`, `type="email"`) and `event.preventDefault()`.
- Customers.Visible: the optional `deleted` field is a boolean with absence read as false, so JSON values of other types in that field (which JavaScript would judge by truthiness) are not modelled.
