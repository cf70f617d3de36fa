# Price upload: grouping and batched upload with backpressure

A model of the logic inside `upload_prices` in `upload_prices.py`. The script
reads a CSV of product prices and builds `products_data`, one entry per product
id holding that product's price rows. It then uploads the entries in batches of
at most 1000. The server answers each batch with `num_imported`, the number of
entries it took, and the cursor `start_index` moves forward by exactly that
much. A smaller answer makes the next request resend the entries that were not
taken.

Two modules, one per part of the function:

- `PriceGrouping` (`grouping.dfy`) covers lines 39-54. CSV rows are the
  datatype `Row` and the entries are `ProductEntry`. `DataFrame.groupby` is a
  library call, so the function `GroupBy` models it: the keys are the distinct
  product ids in ascending order (pandas' default `sort=True`, see `SortedIds`),
  and each group holds the rows with that id in row order (`RowsOf`). The methods
  `GroupByProduct` (outer loop) and `CollectPrices` (inner loop) are the nested
  `for` loops that build `products_data` and `prices` by appending.
  `GroupByProduct` is proved to build `Grouped(rows)`, and the lemmas state what
  that list means.
- `BatchUpload` (`batch_upload.dfy`) covers lines 57-77. The method
  `UploadBatches` is the `while` loop over `start_index`. The HTTP call is
  replaced by an oracle: `responses` lists the server's `num_imported` answers in
  request order. The method returns the final cursor and every batch it sent.
  The function `Run` specifies the loop, and the lemmas about `Run` state the
  window, cursor, resend and completion properties.

Two behaviours of the code are worth stating up front, and the model keeps both:

- Entries come out in ascending product id order, not in the order in which ids
  first appear in the CSV, because `groupby` sorts its keys by default.
- The code has no retry cap or backoff when the answer is zero. A server that
  keeps answering zero makes it resend the same batch forever (`ZeroForever`).

## Model

| member | source | states |
|---|---|---|
| `PriceGrouping.PriceOf` | upload_prices.py:43-49 | The price dictionary copies every field of its row except the product id; putting the product id back gives the row again. |
| `PriceGrouping.GroupBy` | upload_prices.py:40 | `groupby` yields its groups in strictly ascending key order, with a group for exactly the product ids found in the rows. Each group is non-empty and holds exactly the input rows that carry its key. |
| `PriceGrouping.RowsOf` | upload_prices.py:40-42 | A group holds a row exactly when the row is in the input and carries the group's product id. |
| `PriceGrouping.RowsOfAppend` | upload_prices.py:40-42 | Grouping keeps row order: the group of a concatenation is the concatenation of the groups. |
| `PriceGrouping.Insert` | upload_prices.py:40 | Adding a key to a strictly ascending key list keeps it strictly ascending, adds that key and nothing else. |
| `PriceGrouping.SortedIds` | upload_prices.py:40 | The keys `groupby` visits are strictly ascending and are exactly the product ids found in the rows. |
| `PriceGrouping.CollectPrices` | upload_prices.py:41-49 | The inner loop produces one price per row of the group, in order, and putting the product id back in front of each price gives that row again. |
| `PriceGrouping.GroupByProduct` | upload_prices.py:39-54 | The nested loops build exactly `Grouped(rows)`: one entry per group that `groupby` yields, in the order it yields them, each holding the prices of its group's rows in row order. The `Grouped*` lemmas below state what that list is. |
| `PriceGrouping.GroupedIdsAscending` | upload_prices.py:40 | Entries come in strictly ascending product id order, so no id appears twice. |
| `PriceGrouping.GroupedIdsExact` | upload_prices.py:40-54 | There is an entry for an id if and only if some input row carries that id. |
| `PriceGrouping.GroupedPricesAreRows` | upload_prices.py:41-49 | Each entry's prices are non-empty. With the entry's id put back, they are exactly the input rows with that id, in row order, every field copied. |
| `PriceGrouping.GroupedPermutation` | upload_prices.py:40-54 | No row is lost or duplicated: the rows the entries stand for are a permutation of the input rows. |
| `PriceGrouping.GroupedTotal` | upload_prices.py:40-54 | The entries hold as many prices in total as there are input rows. |
| `BatchUpload.Window` | upload_prices.py:57-61 | Inside the loop the batch is non-empty and holds at most 1000 entries. It is the contiguous slice starting at the cursor, and it is either full or reaches the end of the list. |
| `BatchUpload.Run` | upload_prices.py:60-71 | The cursor never moves backwards. At most one request is made per answer, and every batch holds 1 to 1000 entries. The loop stops early only when the cursor has reached the end. |
| `BatchUpload.UploadBatches` | upload_prices.py:57-77 | The loop returns exactly the final cursor and the batches sent of `Run(products, 0, responses)`, so every property proved of `Run` holds of it. |
| `BatchUpload.RunCursor` | upload_prices.py:70-71 | The final cursor is the start plus the sum of every `num_imported` read. |
| `BatchUpload.RunBatchAt` | upload_prices.py:60-71 | Request i sends the window at the cursor left by the first i answers, and that cursor was still inside the list. |
| `BatchUpload.ZeroResends` | upload_prices.py:71-77 | After an answer of zero, the next request sends the identical batch. |
| `BatchUpload.ZeroForever` | upload_prices.py:60-77 | Against a server that only answers zero, the cursor never moves. Every answer is spent resending the first window, so no number of answers ends the loop. |
| `BatchUpload.RunCompletes` | upload_prices.py:60-71 | Suppose every answer lies between 1 and its batch's size and there are enough answers. Then the loop ends with the cursor exactly at the end of the list, after at most one request per remaining entry. |
| `BatchUpload.RunImportsAll` | upload_prices.py:60-71 | Under the same answers, putting together the imported prefix `batch[..num_imported]` of every batch gives back the list from the start cursor on. |
| `BatchUpload.FullAcceptanceCalls` | upload_prices.py:57-61 | When every batch is imported whole, the loop finishes in exactly ceil(n / 1000) requests. For example, 2500 entries take 3 requests. |
| `BatchUpload.CursorBounded` | upload_prices.py:60-71 | While no answer exceeds its batch's size, the cursor never passes the end of the list. |
| `BatchUpload.OverReportOvershoots` | upload_prices.py:70-71 | `num_imported` is not checked, so an answer larger than what remains moves the cursor past the end of the list. |

## Left out

- `get_access_token` and `Credentials` (lines 12-26) are left out. They are an OAuth2 HTTP call with no logic of their own.
- The upload request, `raise_for_status` and the JSON decoding (lines 63-70) are left out as network I/O. An HTTP error would abort the run; the model has no error path for it. The answer is a supplied `num_imported` value.
- The validation request and its report (lines 82-93) are left out as network I/O and output.
- CSV loading and argument handling in `__main__` (lines 96-99) are left out as file I/O and parsing.
- Progress `print` output (lines 73, 77, 79, 90-93) is left out.
- Line 79 names `uploaded_count`, which is never defined, so the script would fail with a NameError after the loop. The model stops at loop exit.
- `PriceGrouping.PriceOf`: the `float(row["price"])` conversion is not modelled, because it is floating point. The price keeps the value it was read with, as an integer.
- `BatchUpload.UploadBatches`: `num_imported` is typed as a natural number, so other answers are not modelled. A string answer makes `start_index += num_imported` (line 71) raise a TypeError. A float answer makes `start_index` a float, so the next slice (line 61) raises a TypeError. A negative integer is accepted unchecked: the cursor moves back, and once it is negative Python's slice counts from the end of the list.
- `BatchUpload.UploadBatches`: the server is a finite list of answers, so the loop also stops when the list runs out. The code would keep asking. This is why the method terminates even though the code can loop forever on zero answers.
- No retry cap or backoff is modelled, because the code has none.
- `PriceGrouping.GroupedPermutation`: holds for rows whose `product_id` is an integer. A row with an empty `product_id` (NaN) is dropped by `groupby` (its default `dropna=True`), so its prices never reach `products_data`. The model types the id as `int` and has no such row.
- `PriceGrouping.GroupedIdsAscending`: holds for integer product ids. `int(product_id)` (line 52) truncates non-integer float keys, so keys 1.2 and 1.7 would both give id 1 and an id would repeat. The model types the id as `int` and has no such key.
