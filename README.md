# Art catalog orders: statement builders and order integrity

This project models two parts of the relational side of the art catalog
service and proves their properties in Dafny.

- **`RdbService`** (`rdb_service.dfy`) is the statement builder of the record store:
  - the WHERE clause and bound arguments built from a template;
  - the LIMIT tail written for an optional offset and limit;
  - the text of the `SELECT … LIKE` prefix query, the UPDATE, the INSERT and the DELETE;
  - the wrapping of driver failures in `RDBServiceException`.

  The driver is a parameter of type `Database`. It maps a statement text and its bound
  arguments to either a row count with a `lastrowid`, or a raised exception. MySQL's reading
  of a LIMIT tail is modelled by `ApplyLimit`, so the lemmas can state which rows each tail selects.
  It accepts unsigned decimal numbers up to 2^64-1, the largest value LIMIT takes, and rejects every other tail.
- **`OrdersResource`** (`orders_resource.dfy`) is the class `ArtCatalogOrdersResource`.
  - It holds the `orders` and `order_items` tables as sequences of rows, plus the two
    auto-increment counters behind `lastrowid`.
  - A ghost trace records every INSERT and DELETE in the order it is issued.
  - `find_by_template` is a filter of a table. `delete_record_by_multikey` removes the matching
    rows. `create_new_record` appends a row under the next id.
  - The class keeps these invariants:
    - ids lie below their counters;
    - order ids are distinct;
    - (order_id, item_id) keys are distinct;
    - every item row belongs to an existing order. This is the referential integrity that the
      schema itself does not enforce.

Supporting modules:

- `Wrappers` holds Option and Result.
- `Seqs` holds an order-preserving filter and its lemmas.
- `Decimal` holds Python's `str()` of an integer and a digit parser, with their round trip.
- `SqlText` holds `str.join`, character counts and a character search.

## Model

| member | source | states |
|---|---|---|
| RdbService.GetWhereClauseArgs | database_services/rdb_service.py:73-89 | The loop builds exactly this: clause `""` and args None for an absent or empty template; otherwise `" WHERE "` plus one `k=%s` per key joined by `" AND "`, and the values in key order |
| RdbService.WhereClausePlaceholders | database_services/rdb_service.py:79-89 | The clause is empty iff no args are bound. A non-empty template binds one arg per key, in order. When no key holds `%`, the clause holds exactly as many placeholders as there are args |
| RdbService.AppendLimit | database_services/rdb_service.py:34-39 | The if/elif chain appends exactly the LIMIT tail of the four offset/limit cases |
| RdbService.FetchAllRecordsStatement | database_services/rdb_service.py:32-39 | The statement fetch_all_records executes is the SELECT followed by the LIMIT tail |
| RdbService.FindByTemplateStatement | database_services/rdb_service.py:103-111 | find_by_template executes the SELECT, a space, the WHERE clause and the LIMIT tail, with the clause's args |
| RdbService.LimitSuffixSelectsPage | database_services/rdb_service.py:34-39 | For offset and limit between 0 and 2^64-1, and any result of at most 2^64-1 rows, the tail selects exactly the requested page. An offset alone skips that many rows and keeps the rest |
| RdbService.PairSuffixSelects | database_services/rdb_service.py:34-35 | For o and l at most 2^64-1, `LIMIT o,l` keeps l rows after the first o |
| RdbService.OffsetSuffixSelects | database_services/rdb_service.py:36-37 | For o at most 2^64-1, `LIMIT o,18446744073709551615` keeps every row after the first o |
| RdbService.CountSuffixSelects | database_services/rdb_service.py:38-39 | For l at most 2^64-1, `LIMIT l` keeps the first l rows |
| RdbService.UnboundedLimitParses | database_services/rdb_service.py:37 | The constant written as the limit reads back as 2^64-1 |
| RdbService.NegativeLimitRejected | database_services/rdb_service.py:34-39 | A negative offset, or a negative limit with or without an offset, produces a tail the server rejects |
| RdbService.OversizedLimitRejected | database_services/rdb_service.py:34-39 | An offset or a limit above 2^64-1 produces a tail the server rejects |
| RdbService.EmptyTemplateIsFetchAll | database_services/rdb_service.py:103-111 | With an absent or empty template, find_by_template binds no args and runs the fetch_all_records statement with one extra space before the tail |
| RdbService.TemplateDoubleSpace | database_services/rdb_service.py:104 | With a non-empty template, the text holds two spaces between the table and `WHERE` |
| RdbService.GetByPrefixStatement | database_services/rdb_service.py:53-64 | The text is the SELECT with `WHERE column LIKE `, an opening quote, the prefix followed by `%`, and a closing quote as its last character |
| RdbService.GetByPrefixLiteral | database_services/rdb_service.py:53-64 | The prefix statement ends in a quote, its pattern literal reads back as the prefix followed by `%`, and the first quote after the opening quote is the last character iff the prefix holds no quote |
| RdbService.Commit | database_services/rdb_service.py:215-222 | A failed execute or commit surfaces as `RDBServiceException` carrying the driver's error; a success returns the row count |
| RdbService.ExecuteDbCommitQuery | database_services/rdb_service.py:207-222 | The text runs with no bound args. The call fails iff the driver raises, with `RDBServiceException` carrying that error; otherwise it returns the row count |
| RdbService.UpdateStatement | database_services/rdb_service.py:128-143 | The UPDATE fails with the ValueError exactly when the conditions are absent or empty |
| RdbService.UpdateShape | database_services/rdb_service.py:131-143 | With conditions, the UPDATE text starts with `UPDATE schema.table SET ` and ends with `" WHERE "` followed by the `k = v` conditions joined by `", "` |
| RdbService.UpdateRecord | database_services/rdb_service.py:119-144 | Without conditions the result is the ValueError whatever the database would do. Otherwise it is the committed execution of the UPDATE text with no bound args. A ValueError means the conditions were absent or empty. An `RDBServiceException` means there were conditions and the driver raised on the UPDATE |
| RdbService.UpdateConditionsCommaJoined | database_services/rdb_service.py:134-135 | The condition part holds one `=` per condition and one comma between each pair, so conditions are joined by `", "` and not by AND (when no key or value holds `=` or `,`) |
| RdbService.InsertListsAgree | database_services/rdb_service.py:158-170 | The bound args are the field values in key order. The VALUES list holds one placeholder per field. The column and VALUES lists have the same number of separators |
| RdbService.InsertStatement | database_services/rdb_service.py:158-167 | The text starts with `INSERT INTO schema.table`, and the bound args are the field values in key order, one per field |
| RdbService.CreateNewRecord | database_services/rdb_service.py:169-177 | The INSERT runs with the field values bound. It fails iff the driver raises, with `RDBServiceException` carrying that error; otherwise the result is the new row's `lastrowid` |
| RdbService.DeleteStatement | database_services/rdb_service.py:189-202 | No key pairs gives ValueError; otherwise the `first_done` loop produces the table's `WHERE` followed by every `k = v` joined by `" AND "` |
| RdbService.DeleteConditionsCount | database_services/rdb_service.py:197-202 | The WHERE part holds exactly one `=` per key pair (when no key or value holds `=`) |
| RdbService.DeleteStartsWithWhere | database_services/rdb_service.py:189-196 | Every DELETE text starts with `DELETE FROM schema.table WHERE `, whatever the schema, table, keys and values hold |
| RdbService.DeleteIsConditional | database_services/rdb_service.py:193-202 | When no key, value, schema or table name holds `=`, a DELETE starts with the table's `WHERE` and holds exactly one `=` per key pair |
| RdbService.DeleteRecordByMultikey | database_services/rdb_service.py:180-204 | Without keys the result is the ValueError; otherwise it is the committed execution of the DELETE text |
| Decimal.IntToStringRoundTrip | database_services/rdb_service.py:35 | The decimal text an f-string writes for an int reads back as that int |
| OrdersResource.OrdersWithIdNonEmpty | application_services/art_catalog_orders_resource.py:14-21 | The lookup by order_id finds a row iff some order row has that id |
| OrdersResource.ItemsWithKeyNonEmpty | application_services/art_catalog_orders_resource.py:133-138 | The lookup by (order_id, item_id) finds a row iff some item row has that key |
| OrdersResource.OneOrderPerId | application_services/art_catalog_orders_resource.py:65-67 | With distinct order ids, an existing order matches exactly one row, so its DELETE reports one row |
| OrdersResource.WithoutItemRemovesKey | application_services/art_catalog_orders_resource.py:158-160 | Deleting a key leaves no row with that key and leaves every other key's rows as they were |
| OrdersResource.WithoutAbsentItem | application_services/art_catalog_orders_resource.py:156-163 | Deleting a key that no row has changes nothing |
| OrdersResource.WithoutItemRemovesOne | application_services/art_catalog_orders_resource.py:157-161 | With distinct keys, deleting an existing key removes exactly one row |
| OrdersResource.ReplaceItem | application_services/art_catalog_orders_resource.py:77-89 | An add ends with the new row. Every earlier row is a row of the old table without the key, and every old row without the key survives |
| OrdersResource.ReplaceItemLeavesOneRow | application_services/art_catalog_orders_resource.py:77-95 | After an add, exactly one row carries the key, with the supplied payload and the new record id |
| OrdersResource.ReplaceItemKeepsOthers | application_services/art_catalog_orders_resource.py:77-95 | An add leaves the rows of every other key as they were |
| OrdersResource.ReplaceItemIdempotent | application_services/art_catalog_orders_resource.py:77-95 | Adding the same item twice leaves the table one add would, apart from the generated record id |
| OrdersResource.CascadeRemovesChildren | application_services/art_catalog_orders_resource.py:59-67 | After the cascade no item of the order remains, and the items of every other order are as they were |
| OrdersResource.WithoutOrderRemovesId | application_services/art_catalog_orders_resource.py:65-67 | Deleting the order row leaves no row with its id and leaves every other order as it was |
| OrdersResource.WithoutKeysOfOrder | application_services/art_catalog_orders_resource.py:59-63 | Deleting the key of every item the listing returned deletes exactly the order's items |
| OrdersResource.StillPresent | application_services/art_catalog_orders_resource.py:62-63 | Each listed item is still present when the loop reaches it, so each call issues its DELETE |
| OrdersResource.ItemsOfRemovable | application_services/art_catalog_orders_resource.py:59-63 | The listed rows are rows of the table, belong to that order, and have distinct keys |
| OrdersResource.CascadeKeepsInvariants | application_services/art_catalog_orders_resource.py:59-67 | What the cascade leaves keeps distinct ids, ids below the counter and referential integrity |
| OrdersResource.CascadeKeepsIntegrity | application_services/art_catalog_orders_resource.py:59-67 | Every surviving item belongs to a surviving order |
| OrdersResource.WithoutOrderKeepsInvariants | application_services/art_catalog_orders_resource.py:65-67 | Deleting an order row keeps order ids distinct and below the counter |
| OrdersResource.ItemFilterKeepsInvariants | application_services/art_catalog_orders_resource.py:158-160 | Deleting item rows keeps item keys distinct, record ids below the counter, and every item attached to an order |
| OrdersResource.DeleteItemKeepsInvariants | application_services/art_catalog_orders_resource.py:156-163 | Deleting one key keeps the item invariants and leaves no row with that key. The table loses one row if the key was present and is unchanged otherwise |
| OrdersResource.ReplaceItemKeepsInvariants | application_services/art_catalog_orders_resource.py:86-89 | Appending the new item row of an add to an existing order keeps the item invariants, and the counter moves past the new id |
| OrdersResource.AppendOrderKeepsInvariants | application_services/art_catalog_orders_resource.py:46-49 | A new order row under the next id collides with no existing order and keeps the order invariants |
| OrdersResource.ParseRouteRoundTrip | application_services/art_catalog_orders_resource.py:107 | A route built from two ids reads back as those ids |
| OrdersResource.HrefRoundTrip | application_services/art_catalog_orders_resource.py:107 | `/orders/{order_id}/orderitems/{item_id}` reads back as (order_id, item_id) |
| OrdersResource.HrefInjective | application_services/art_catalog_orders_resource.py:107 | Two items share an href only if they have the same order id and the same item id |
| OrdersResource.ItemLinksLeadToRows | application_services/art_catalog_orders_resource.py:104-110 | There is one link per item row, in the same order. Each has rel `order_item` and an href that leads back to that row's order and item |
| OrdersResource.ItemDeleteIsConditional | application_services/art_catalog_orders_resource.py:158-160 | The DELETE behind each item removal starts with `order_items`' WHERE and holds exactly two `k = v` terms |
| OrdersResource.ArtCatalogOrdersResource.constructor | application_services/art_catalog_orders_resource.py:10-11 | `__init__` only calls the base class; the model starts from an initial empty store: both tables empty, the counters at 1, and the invariants hold |
| OrdersResource.ArtCatalogOrdersResource.OrderExists | application_services/art_catalog_orders_resource.py:14-21 | True iff at least one order row has that order_id |
| OrdersResource.ArtCatalogOrdersResource.RetrieveAllOrders | application_services/art_catalog_orders_resource.py:26-30 | Every order row, in table order, each with the links of its own items |
| OrdersResource.ArtCatalogOrdersResource.RetrieveSingleOrder | application_services/art_catalog_orders_resource.py:33-42 | None iff no row has the id; otherwise the first such row, with its items' links |
| OrdersResource.ArtCatalogOrdersResource.AddNewOrder | application_services/art_catalog_orders_resource.py:45-49 | Returns the next id, which no order had. Appends that one row, leaves items unchanged, keeps the invariants and records one INSERT |
| OrdersResource.ArtCatalogOrdersResource.RemoveOrderById | application_services/art_catalog_orders_resource.py:52-67 | Absent order: None and nothing changes. Otherwise the order and all its items are gone and the rest is unchanged. The trace is one item DELETE per item, in listing order, then the order DELETE. The result is row count 1 and the invariants hold |
| OrdersResource.ArtCatalogOrdersResource.RemoveEachItem | application_services/art_catalog_orders_resource.py:62-63 | The loop deletes exactly the listed keys, issues one DELETE per listed row in order, and keeps the invariants |
| OrdersResource.ArtCatalogOrdersResource.AddItemToOrder | application_services/art_catalog_orders_resource.py:74-95 | Absent order: None and nothing changes. Otherwise the old entry with that key is deleted (a DELETE only if one existed), the new row is inserted under the next record id, and the ids are returned |
| OrdersResource.ArtCatalogOrdersResource.RetrieveAllItemsInGivenOrder | application_services/art_catalog_orders_resource.py:98-121 | With href: one link per item of the order, in order, with no existence check. Without href: None for an absent order, else the order's item rows |
| OrdersResource.ArtCatalogOrdersResource.RetrieveSingleItemInGivenOrder | application_services/art_catalog_orders_resource.py:125-140 | None iff the order is absent; False iff the order exists and no row has the key; otherwise the first row with that key |
| OrdersResource.ArtCatalogOrdersResource.RemoveItemFromOrder | application_services/art_catalog_orders_resource.py:144-163 | Absent order: None. Otherwise the result says whether the key was present and the key is gone afterwards. True means exactly that row was deleted and one DELETE was recorded. False means nothing changed. A second identical call therefore returns False |

## Left out

- Connections, cursors, `commit`/`close`, the `mogrify` printing and logging are driver I/O. The driver is the `Database` parameter.
- Read statements are modelled as text only. Their rows are modelled in `OrdersResource` as filters of the tables.
  - In the source, `fetch_all_records`, `find_by_template` and `get_by_prefix` do not catch driver errors, so those errors propagate unwrapped.
  - Only `create_new_record` and `_execute_db_commit_query` wrap driver errors.
- In `create_new_record` and `_execute_db_commit_query`, `_get_db_connection()` and `conn.cursor()` run before the `try`, and `conn.close()` runs in `finally`. A failure to connect, to open a cursor or to close escapes unwrapped. `Database` has no outcome for these failures, so they are not modelled.
- In the resource layer every statement succeeds. Store failures raised through `ArtCatalogOrdersResource` are not modelled.
- The resource calls `find_by_template` and `fetch_all_records` without their offset and limit arguments. In Python that call raises TypeError. The model treats these calls as unpaginated (offset and limit None).
- `lastrowid` is modelled as an auto-increment counter per table.
  - An `order_id` supplied inside `order_information` is not modelled: `AddNewOrder` takes only the other columns.
  - The item row's id is the generated `recordId`.
- SELECT results come back in table order, and an INSERT appends. SQL guarantees no order without ORDER BY.
- Values are written into UPDATE and DELETE text without quoting or escaping, exactly as the source does. What the server makes of such text (injection, type coercion) is not modelled.
- A Python dict becomes a sequence of pairs in insertion order. Duplicate keys are not excluded.
- Only int and string column values are modelled. The JSON bodies the application passes can also hold floats, booleans and null. `f"{v}"` writes those as `2.5`, `True` or `None`, and the driver binds None as NULL.
- `order["links"] = …` adds a key to the row dict. The model returns a `LinkedOrder` pairing the row with its links.
- The distinct-key invariant of `order_items` holds because every write goes through this class, starting from empty tables. Rows written by other clients are not modelled.
- Races between the existence checks and the later writes, and the missing transaction around the cascade, are not modelled. The model is sequential.
- `BaseApplicationResource`, the DynamoDB service and its stubs, the comment resource stubs, `application.py`, and the secrets and error-code files are not part of this model.
- RdbService.UpdateConditionsCommaJoined: counts `=` and `,` only when no key or value holds either, since such characters would be counted too.
- RdbService.DeleteConditionsCount: counts `=` only when no key or value holds one, for the same reason.
- RdbService.WhereClausePlaceholders: counts placeholders only when no key holds `%`, for the same reason.
- RdbService.InsertListsAgree: compares separator counts only when no column name holds `,`, for the same reason.
- RdbService.DeleteIsConditional: counts `=` only when no key, value, schema or table name holds one, for the same reason. Its prefix half holds without that restriction and is DeleteStartsWithWhere.
- Decimal.IntToString: never fails. CPython 3.11 and later raises ValueError from `str()` of an int with more than 4300 digits. That limit affects the f-strings of the LIMIT tail, the UPDATE and DELETE terms, and the href. It is not modelled.
