# mist core, modelled in Dafny

mist is a small header-only C++ toolkit for grid-based simulation codes.
This project models and proves five parts of it.

- **Vectors, index spaces and buffers** (`mist.hpp`):
  - `vec_t` arithmetic and reductions;
  - `index_space_t` with `size`, `contains` and the row-major `ndoffset`/`ndindex` pair;
  - `ndread`/`ndwrite` and their component-major (SoA) variants on flat arrays;
  - the index-space iterator and the sequential `for_each`.
- **The ASCII archive writer** (`include/mist/ascii_writer.hpp`):
  - one `Writer` object with an output text, an indent size and an indent level;
  - each method appends exactly the line the source prints;
  - floats get their decimal point, and strings are escaped.
- **The ASCII archive reader** (`include/mist/ascii_reader.hpp`):
  - an `InputStream` object with the `good`/`eof`/`fail` flags of `std::istream`;
  - a `Reader` object with the current group and the group stack;
  - every reader method is proved equal to a specification function on a cursor `(pos, eof, fail)`;
  - each function returns the value, or the error the source throws, together with the stream state afterwards.
- **serialize/deserialize** (`include/mist/serialize.hpp`):
  - a value is a tree of scalars, strings, `vec_t`s, arithmetic vectors, structs and vectors of structs;
  - `serialize` is the sequence of archive calls it makes;
  - `deserialize` is guided by the target's type (a `Shape`) and replays those calls.
- **The simulation driver** (`include/mist/driver.hpp`):
  - the RK1/RK2/RK3 integrators;
  - the `exact` and `nearest` scheduling policies of the four outputs (message, checkpoint, products, timeseries);
  - the `driver_state_t` record, as a `DriverState` object;
  - timeseries accumulation;
  - `run`: initialisation, validation, the initial outputs and the main loop.

  The physics module is a parameter: a datatype of closures for the initial state, `euler_step`, `average`, `courant_time`, `get_time` and `timeseries_sample`.

### What is proved

- **Indexing.** `ndoffset` and `ndindex` are inverse bijections between the index space and `[0, size)`. Every offset of a contained index is below `size`.
- **Buffers.**
  - Read-after-write, with only one cell changed.
  - An SoA write touches exactly N cells, at `c*size + offset` for component c.
  - Iterating visits `ndindex(0), …, ndindex(size-1)`: every point of the space, once, in row-major order.
- **Writer and reader round trips.**
  - Every line the writer emits is read back by the matching reader call: scalar, string, fixed and dynamic array, named group, anonymous group and end of group.
  - Each read returns the written value, and the stream stops at the line's newline.
  - Escaping round-trips through `read_quoted_string`.
  - `count_groups` counts exactly the anonymous groups at depth 0 of a body of balanced groups.
- **Reader errors.** Each error path is stated for all inputs:
  - a field or group name mismatch;
  - a bad separator in a dynamic array;
  - a missing identifier;
  - a missing or malformed number.
- **serialize/deserialize.** Serializing any value yields a properly nested call sequence. Deserializing it with the value's type gives the value back and leaves any following calls untouched.
- **Driver.**
  - The scheduling policies fire exactly when their conditions hold, and the exact substep lies in `(0, dt]`.
  - Every Runge–Kutta order advances simulation time by `dt` under a physics that keeps time consistently. On `y' = λy` they agree with the Taylor series to their order.
  - Timeseries accumulation appends each sampled value to its column and keeps names distinct and column order stable.
  - For `run`:
    - every output's emissions are numbered consecutively from where the record left off;
    - on a schedule begun at a fresh start, output n of a channel was at or after `n * interval` (nearest), or at exactly that time (exact);
    - the timeseries table is the accumulation of exactly the timeseries emissions;
    - each pass of the loop fires, in index order (message, checkpoint, products, timeseries), first the exact outputs due over `[t0, t0 + dt]`, then, after the step and `iteration++`, the nearest outputs due on the new state; which outputs are due is judged against the clocks the pass started from, and nothing else fires;
    - the loop passes through the states a deterministic stepping relation produces and stops for the reason it reports.

### Code order

The driver validates the outputs after parsing all four policies and after initialising the next-output times (`include/mist/driver.hpp:361-366` before `:446-448`). The initial outputs come only after validation (`:451-455`). The model follows this order. A bad policy or an invalid output therefore leaves the record with its next-output times initialised, which `Driver.Run` states.

## Model

| member | source | states |
|---|---|---|
| Vec.Add | mist.hpp:166-175 | the sum of two equal-length vectors is the componentwise sum `Plus` |
| Vec.Sub | mist.hpp:177-186 | componentwise difference `Minus` |
| Vec.MinusUndoesPlus | mist.hpp:166-186 | subtracting b undoes adding b |
| Vec.SumOfPlus | mist.hpp:166-175 | sum(a + b) == sum(a) + sum(b) |
| Vec.Scale | mist.hpp:188-197 | every component multiplied by the scalar (`Times`) |
| Vec.ScaleLeft | mist.hpp:199-203 | scalar * v has component i equal to s * v[i], same length |
| Vec.Div | mist.hpp:205-213 | every component divided with C++ truncating division (`Quot`) |
| Vec.TruncDivRule | mist.hpp:205-213 | truncating division: q*d + r == x, abs(r) < abs(d), r has the sign of x |
| Vec.QuotTimesRestores | mist.hpp:205-213 | (v / s) * s plus the remainders restores v |
| Vec.Dot | mist.hpp:216-225 | the accumulating loop computes `DotOf` |
| Vec.DotIsSumOfProducts | mist.hpp:216-225 | dot(a, b) is the sum of a[i]*b[i] |
| Vec.DotSymmetric | mist.hpp:216-225 | dot(a, b) == dot(b, a) |
| Vec.DotTimes | mist.hpp:188-225 | dot(a*s, b) == s * dot(a, b) |
| Vec.Map | mist.hpp:227-237 | component i of the result is f(v[i]) |
| Vec.Sum | mist.hpp:239-246 | the loop computes `SumOf` |
| Vec.Product | mist.hpp:248-255 | the loop computes `ProductOf` (1 for the empty vector) |
| Vec.ProductOfAppend | mist.hpp:248-255 | product(a ++ b) == product(a) * product(b) |
| Vec.ProductOfNaturals | mist.hpp:248-255 | a product of naturals is positive iff every factor is |
| Vec.Any | mist.hpp:257-263 | true iff some component is true |
| Vec.All | mist.hpp:265-271 | true iff every component is true |
| Vec.Range | mist.hpp:147-159 | [0, 1, ..., n-1] |
| Vec.SumOfRange | mist.hpp:147-159 | the components of range<n> sum to n(n-1)/2 |
| Vec.DemoReductions | mist.hpp:239-255 | sum, product and dot on small vectors |
| Indexing.Size | mist.hpp:303-310 | the loop computes the product of the shape (`SizeOf`) |
| Indexing.Contains | mist.hpp:312-321 | true iff start[i] <= idx[i] < start[i] + shape[i] on every axis |
| Indexing.NdOffset | mist.hpp:327-337 | the reverse-axis stride loop computes the row-major offset `NdOffsetOf` |
| Indexing.NdIndex | mist.hpp:339-348 | the remainder/quotient loop computes `NdIndexOf` |
| Indexing.OffsetInRange | mist.hpp:327-337 | in-range digits give an offset in [0, product(shape)) |
| Indexing.DigitsOfOffset | mist.hpp:327-348 | splitting the offset of in-range digits gives back those digits |
| Indexing.OffsetOfDigits | mist.hpp:327-348 | the offset of the digits of n is n, for n below the size |
| Indexing.NdOffsetBelowSize | mist.hpp:327-337 | a contained index has offset in [0, size) |
| Indexing.NdIndexOfNdOffset | mist.hpp:327-348 | ndindex(ndoffset(idx)) == idx for every contained idx |
| Indexing.NdOffsetOfNdIndex | mist.hpp:327-348 | ndindex(n) is contained and ndoffset(ndindex(n)) == n for n < size |
| Indexing.NdOffsetInjective | mist.hpp:327-337 | distinct contained indices have distinct offsets |
| Indexing.DemoOffsets | mist.hpp:327-337 | offsets in a 10x20 space, with and without a start |
| Indexing.DemoIndices | mist.hpp:339-348 | indices of offsets 43 and 109 |
| Buffers.NdRead | mist.hpp:350-354 | reads the cell at ndoffset |
| Buffers.NdWrite | mist.hpp:356-360 | the array after the write is `WriteAt` of the old contents |
| Buffers.ReadAfterWrite | mist.hpp:350-360 | a read after a write sees the written value at that index and the old value elsewhere; only the cell at ndoffset changes |
| Buffers.NdReadSoa | mist.hpp:362-373 | component c is read from cell c*size + offset |
| Buffers.NdWriteSoa | mist.hpp:375-384 | the array after the write is `WriteSoa` of the old contents |
| Buffers.SoaCellInRange | mist.hpp:362-384 | cell c*size + offset lies in [0, n*size) and splits back into (c, offset) |
| Buffers.SoaReadAfterWrite | mist.hpp:362-384 | reading the written vector back gives it |
| Buffers.SoaWriteFrame | mist.hpp:362-384 | a write at one index leaves the vector at any other index unchanged |
| Buffers.SoaWriteTouchesN | mist.hpp:375-384 | the write puts v[c] at cell c*size + offset, at strictly increasing cells, and changes nothing else |
| Buffers.DemoSoa | mist.hpp:362-384 | three writes to a 3-component buffer read back independently |
| Buffers.VisitsEachOnce | mist.hpp:390-434 | the visit sequence holds each contained index exactly once, at its ndoffset |
| Buffers.IndexSpaceIterator.Get | mist.hpp:402-404 | dereferencing yields ndindex(offset) |
| Buffers.IndexSpaceIterator.Increment | mist.hpp:406-409 | the offset grows by one |
| Buffers.Begin | mist.hpp:426-429 | an iterator at offset 0 |
| Buffers.End | mist.hpp:431-434 | an iterator at offset size |
| Buffers.IterateSpace | mist.hpp:390-434 | iterating begin..end visits exactly `Visits(space)` |
| Buffers.ForEach | mist.hpp:460-467 | the sequential for_each calls the function on `Visits(space)`, in order |
| Text.NatToStringValue | include/mist/ascii_writer.hpp:115-117 | the decimal digits of n read back as n |
| Text.ParseIntToString | include/mist/ascii_reader.hpp:298-304 | reading an integer's decimal text gives the integer |
| Text.IntToStringInjective | include/mist/ascii_writer.hpp:115-117 | distinct integers print differently |
| Text.ParseIntExamples | include/mist/ascii_reader.hpp:298-304 | `>>` into int: a sign, a digit run, stopping at the first non-digit |
| AsciiWriting.FormatFloat | include/mist/ascii_writer.hpp:104-114 | the result contains '.' or 'e'; ".0" is appended only when neither is present |
| AsciiWriting.FormatFloatIdempotent | include/mist/ascii_writer.hpp:104-114 | formatting a formatted float changes nothing |
| AsciiWriting.EscapeString | include/mist/ascii_writer.hpp:120-134 | the loop computes `Escaped` |
| AsciiWriting.EscapedOneLine | include/mist/ascii_writer.hpp:120-134 | no newline, carriage return or tab survives escaping |
| AsciiWriting.EscapedIdentity | include/mist/ascii_writer.hpp:120-134 | escaping changes s iff s holds a character that needs escaping |
| AsciiWriting.FinalLevelIsNetDepth | include/mist/ascii_writer.hpp:75-91 | after a call sequence the indent level is the start plus begins minus ends |
| AsciiWriting.RenderAppend | include/mist/ascii_writer.hpp:75-91 | rendering a + b is rendering a, then b at a's final level |
| AsciiWriting.GroupRendering | include/mist/ascii_writer.hpp:75-91 | a group with a balanced body is `name {`, the body one level deeper, then `}` at the start level |
| AsciiWriting.ScalarLineExample | include/mist/ascii_writer.hpp:26-29 | `iteration = 42` |
| AsciiWriting.ArrayLineExample | include/mist/ascii_writer.hpp:44-53 | `resolution = [64, 64, 32]` |
| AsciiWriting.IndentExamples | include/mist/ascii_writer.hpp:98-102 | four spaces per level; the closing brace is one level out |
| AsciiWriting.Writer.WriteIndent | include/mist/ascii_writer.hpp:98-102 | appends level*size spaces |
| AsciiWriting.Writer.WriteScalar | include/mist/ascii_writer.hpp:26-29 | appends `indent name = value\n` |
| AsciiWriting.Writer.WriteString | include/mist/ascii_writer.hpp:35-38 | appends `indent name = "escaped"\n` |
| AsciiWriting.Writer.WriteArray | include/mist/ascii_writer.hpp:44-69 | appends `indent name = [v0, v1, ...]\n` |
| AsciiWriting.Writer.WriteValues | include/mist/ascii_writer.hpp:48-51 | the element loop appends the values joined by ", " |
| AsciiWriting.Writer.BeginGroup | include/mist/ascii_writer.hpp:75-79 | appends `indent name {\n` and enters a level |
| AsciiWriting.Writer.BeginAnonymousGroup | include/mist/ascii_writer.hpp:81-85 | appends `indent {\n` and enters a level |
| AsciiWriting.Writer.EndGroup | include/mist/ascii_writer.hpp:87-91 | leaves a level, then appends `indent }\n` at the new level |
| AsciiReading.MismatchMessageNames | include/mist/ascii_reader.hpp:31-35 | a name-mismatch message names the expected name, the name found and the group |
| AsciiReading.InputStream.Peek | include/mist/ascii_reader.hpp:231-233 | `PeekOf`: the next character or EOF; peeking at the end sets eof, peeking when not good sets fail |
| AsciiReading.InputStream.Get | include/mist/ascii_reader.hpp:235-237 | `GetOf`: consumes the character; reading at the end sets eof and fail |
| AsciiReading.InputStream.Tell | include/mist/ascii_reader.hpp:180 | `TellOf`: the position, or -1 (setting fail) when the stream is not good |
| AsciiReading.InputStream.Seek | include/mist/ascii_reader.hpp:221 | `SeekOf`: clears eof, then moves only when not failed; a position outside the text sets fail |
| AsciiReading.Reader.SkipWhitespace | include/mist/ascii_reader.hpp:239-243 | ends at `SkipWs`: the first non-space, or the stream's end |
| AsciiReading.Reader.SkipWhitespaceAndComments | include/mist/ascii_reader.hpp:245-255 | ends at `SkipWsComments`: skips spaces and `#` lines |
| AsciiReading.Reader.ExpectChar | include/mist/ascii_reader.hpp:257-264 | consumes one character; fails with UnexpectedChar unless it is the expected one |
| AsciiReading.Reader.ReadIdentifier | include/mist/ascii_reader.hpp:266-280 | the loop reads the longest alnum/underscore run (`ReadIdentifierOf`) |
| AsciiReading.ReadIdentifierFails | include/mist/ascii_reader.hpp:266-280 | fails iff the next character is not an identifier character; the error is MissingIdentifier and nothing is consumed; a success is a non-empty run of identifier characters starting at the cursor |
| AsciiReading.Reader.ReadValue | include/mist/ascii_reader.hpp:282-305 | the loop reads the numeric-token run, then converts it (`ReadValueOf`) |
| AsciiReading.ReadValueErrors | include/mist/ascii_reader.hpp:294-303 | read_value fails only with a missing number or a token `>>` rejects |
| AsciiReading.Reader.ReadQuotedString | include/mist/ascii_reader.hpp:307-329 | the loop unescapes up to the closing quote (`ReadQuotedStringOf`) |
| AsciiReading.Reader.FieldHead | include/mist/ascii_reader.hpp:29-38 | name check, then `=` (`FieldHeadOf`) |
| AsciiReading.FieldHeadNameMismatch | include/mist/ascii_reader.hpp:29-35 | the field head fails with a name mismatch iff an identifier is read and differs from the name; the error carries both names and the group |
| AsciiReading.Reader.ReadScalar | include/mist/ascii_reader.hpp:26-40 | `ReadScalarOf`: the field head, then a value |
| AsciiReading.Reader.ReadString | include/mist/ascii_reader.hpp:46-58 | `ReadStringOf`: the field head, then a quoted string |
| AsciiReading.ScalarStringHead | include/mist/ascii_reader.hpp:28-57 | read_scalar and read_string fail with a name mismatch iff their field head does, and pass any head failure on unchanged |
| AsciiReading.Reader.ReadFixedArray | include/mist/ascii_reader.hpp:64-87 | `ReadFixedArrayOf`: the head, `[`, N values with `,` between, `]` |
| AsciiReading.FixedElemsErrors | include/mist/ascii_reader.hpp:77-84 | the fixed element loop fails only on a missing or bad number or a missing `,` |
| AsciiReading.Reader.ReadDynamicArray | include/mist/ascii_reader.hpp:93-132 | `ReadDynamicArrayOf`: the head, `[`, then `]` at once, or values separated by `,` up to `]` |
| AsciiReading.DynElemsBadSeparator | include/mist/ascii_reader.hpp:117-131 | after a value, a next character other than `,` and `]` fails with BadSeparator of that character |
| AsciiReading.DynElemsErrors | include/mist/ascii_reader.hpp:117-131 | the dynamic element loop fails only on a missing or bad number or a bad separator |
| AsciiReading.ArraysHead | include/mist/ascii_reader.hpp:64-102 | both read_array overloads fail with a name mismatch iff their field head does, and pass any head failure on unchanged |
| AsciiReading.Reader.BeginGroup | include/mist/ascii_reader.hpp:138-152 | `BeginGroupOf`: the name, `{`, then current group becomes parent/name with the parent pushed; on failure the groups are unchanged |
| AsciiReading.GroupNameMismatch | include/mist/ascii_reader.hpp:138-190 | begin_group and count_groups fail with a group name mismatch iff an identifier is read and differs from the name |
| AsciiReading.Reader.BeginAnonymousGroup | include/mist/ascii_reader.hpp:154-161 | `{`, then current group becomes current + "[]" with the parent pushed |
| AsciiReading.Reader.EndGroup | include/mist/ascii_reader.hpp:163-170 | `}`, then the parent group is popped when there is one |
| AsciiReading.Reader.CountGroups | include/mist/ascii_reader.hpp:176-224 | `CountGroupsOf`: the name, `{`, the scan, then a seek back to the name |
| AsciiReading.Reader.ScanForGroups | include/mist/ascii_reader.hpp:193-218 | the scan loop computes `ScanGroups` from depth 0 and count 0 |
| AsciiReading.Reader.ScanOne | include/mist/ascii_reader.hpp:197-217 | one pass of the scan: either stops where `ScanGroups` stops, or consumes input and leaves the rest of the scan unchanged |
| AsciiReading.ScanGroupsStep | include/mist/ascii_reader.hpp:197-217 | what one peeked character does to the scan: `{` deepens (counting at depth 0), `}` closes or stops, EOF stops, anything else is skipped |
| ArchiveRoundTrip.QuotedStringRoundTrip | include/mist/ascii_reader.hpp:307-329 | reading `"` + escape(s) + `"` gives s and stops after the closing quote |
| ArchiveRoundTrip.ScalarLineRoundTrip | include/mist/ascii_reader.hpp:26-40 | reading a written integer line gives the integer, stopping at the newline |
| ArchiveRoundTrip.FloatLineRoundTrip | include/mist/ascii_reader.hpp:26-40 | reading a written float line gives the formatted value, which writes the same line again |
| ArchiveRoundTrip.StringLineRoundTrip | include/mist/ascii_reader.hpp:46-58 | reading a written string line gives the string back |
| ArchiveRoundTrip.FixedArrayLineRoundTrip | include/mist/ascii_reader.hpp:64-87 | reading a written array line with its length gives the values, which write the same line again |
| ArchiveRoundTrip.DynamicArrayLineRoundTrip | include/mist/ascii_reader.hpp:93-132 | reading a written non-empty array line gives the values, which write the same line again |
| ArchiveRoundTrip.DynamicArrayEmpty | include/mist/ascii_reader.hpp:108-115 | `name = []` reads as the empty vector |
| ArchiveGroups.PopUndoesPush | include/mist/ascii_reader.hpp:149-169 | end_group restores the groups either begin_group saved; with an empty stack it keeps the current group |
| ArchiveGroups.NestedPath | include/mist/ascii_reader.hpp:149-151 | entering named groups in turn from the top level gives their names joined by `/`, with one saved path per level |
| ArchiveGroups.BeginGroupLineRoundTrip | include/mist/ascii_reader.hpp:138-152 | a written `name {` line is read by begin_group, which enters the group |
| ArchiveGroups.AnonymousGroupLineRoundTrip | include/mist/ascii_reader.hpp:154-161 | a written `{` line is read by the anonymous begin_group |
| ArchiveGroups.EndGroupLineRoundTrip | include/mist/ascii_reader.hpp:163-170 | a written `}` line is read by end_group, which leaves the group |
| ArchiveGroups.ElementsOpen | include/mist/ascii_reader.hpp:193-218 | a run of balanced anonymous groups opens one depth-0 brace per element |
| ArchiveGroups.ScanCounts | include/mist/ascii_reader.hpp:193-218 | scanning balanced text adds its depth-0 opening braces to the count |
| ArchiveGroups.CountGroupsReads | include/mist/ascii_reader.hpp:176-224 | count_groups over a balanced body returns its depth-0 groups and seeks back to the name |
| ArchiveGroups.CountElementGroups | include/mist/ascii_reader.hpp:176-224 | count_groups on a written vector of structs returns the number of elements |
| Serialization.LeafCalls | include/mist/serialize.hpp:156-180 | a leaf value is one archive call, under its name, of the matching kind |
| Serialization.SerializeNested | include/mist/serialize.hpp:156-206 | every begin call is matched by its end call |
| Serialization.FieldsNested | include/mist/serialize.hpp:197-206 | a struct's fields serialize to a properly nested sequence |
| Serialization.ElementsNested | include/mist/serialize.hpp:182-195 | the elements of a vector of structs serialize to a properly nested sequence |
| Serialization.ElementsSnoc | include/mist/serialize.hpp:186-193 | element i is framed by its begin and end calls with index i |
| Serialization.RoundTrip | include/mist/serialize.hpp:156-263 | deserializing what a value serialized to, with the value's type, gives the value and leaves the following calls |
| Serialization.FieldsRoundTrip | include/mist/serialize.hpp:197-263 | the same for a struct's field list |
| Serialization.ElementsRoundTrip | include/mist/serialize.hpp:238-252 | the same for the elements of a vector of structs |
| Serialization.EventWriter.SerializeValue | include/mist/serialize.hpp:156-206 | appends `Serialize(name, v)` to the archive's calls |
| Serialization.EventWriter.SerializeElementList | include/mist/serialize.hpp:182-195 | the element loop appends the calls for a vector of structs |
| Serialization.EventWriter.SerializeFieldList | include/mist/serialize.hpp:202-204 | the field fold appends the fields' calls in order |
| Serialization.EventReader.Expect | include/mist/serialize.hpp:249-262 | an end call succeeds iff the archive's next call is that end |
| Serialization.EventReader.DeserializeValue | include/mist/serialize.hpp:212-263 | the result and the remaining calls are `DeserializeOf` |
| Serialization.EventReader.DeserializeFieldList | include/mist/serialize.hpp:259-261 | the field fold reads fields in declared order (`DeserializeFieldsOf`) |
| Serialization.EventReader.DeserializeElement | include/mist/serialize.hpp:244-250 | one element: begin(i), its fields, end (`DeserializeElementOf`) |
| Serialization.DefaultOf | include/mist/serialize.hpp:241-248 | a default-constructed value of any type has that type |
| Serialization.WriteThenRead | include/mist/serialize.hpp:156-263 | serialize then deserialize with the value's type returns the value |
| Integrators.RkStep | include/mist/driver.hpp:349-356 | succeeds iff the order is 1, 2 or 3; any other order fails with the rk_order error |
| Integrators.RkAdvancesTime | include/mist/driver.hpp:53-83 | under a time-consistent physics every order advances time by exactly dt |
| Integrators.RkKeepsSteadyState | include/mist/driver.hpp:53-83 | a fixed point of euler_step and average is a fixed point of every order |
| Integrators.LinearTaylor | include/mist/driver.hpp:53-83 | on y' = λy, RK1/2/3 equal the Taylor series of exp(λ dt) to first, second and third order |
| Scheduling.ParsePolicy | include/mist/driver.hpp:91-95 | a failure carries the policy error |
| Scheduling.ParsePolicyNames | include/mist/driver.hpp:91-95 | succeeds iff the text is "exact" or "nearest", and policy names round-trip |
| Scheduling.Validate | include/mist/driver.hpp:111-115 | fails iff the policy is exact and interval_kind is not 0 |
| Scheduling.ExactSubstep | include/mist/driver.hpp:117-127 | when an exact output fires, the substep next - t0 lies in (0, t1 - t0] |
| Scheduling.PoliciesExclusive | include/mist/driver.hpp:117-138 | no output fires from both handlers |
| Scheduling.HandleExact | include/mist/driver.hpp:117-127 | fires iff exact, kind 0 and t0 < next <= t1; then it integrates to next, advances the clock and returns that state at time next; otherwise nothing changes |
| Scheduling.HandleNearest | include/mist/driver.hpp:129-138 | fires iff nearest and get_time(state, kind) >= next; then it advances the clock and returns the state; otherwise nothing changes |
| DriverStates.AdvancedChangesOneClock | include/mist/driver.hpp:122-123 | firing adds one to the count and the interval to the next time of that channel only |
| DriverStates.DriverState.constructor | include/mist/driver.hpp:145-158 | a default driver_state_t: every counter and time 0, no timeseries |
| DriverStates.DriverState.SetClock | include/mist/driver.hpp:361-366 | sets one channel's clock and nothing else |
| DriverStates.DriverState.Advance | include/mist/driver.hpp:122-123 | `Advanced`: one channel's count and next time move on |
| DriverStates.DriverState.CountIteration | include/mist/driver.hpp:472 | iteration++ and nothing else |
| DriverStates.DriverState.AccumulateTimeseriesSample | include/mist/driver.hpp:315-332 | the sample loop computes `Accumulated`; nothing else changes |
| TimeseriesTable.FindColumn | include/mist/driver.hpp:320-324 | the index of the first column with the name, or the table length when there is none |
| TimeseriesTable.FindColumnIndex | include/mist/driver.hpp:320-324 | the search loop computes `FindColumn` |
| TimeseriesTable.FindColumnUnique | include/mist/driver.hpp:320-324 | the first-match conditions determine the index |
| TimeseriesTable.AddValueLookup | include/mist/driver.hpp:326-330 | adding a value appends it to its column and leaves other columns alone |
| TimeseriesTable.AddValueNames | include/mist/driver.hpp:326-330 | a new name is appended at the end; a known name keeps the column list |
| TimeseriesTable.AddValueTotal | include/mist/driver.hpp:326-330 | one more value in the table |
| TimeseriesTable.AddValueDistinct | include/mist/driver.hpp:326-330 | column names stay distinct |
| TimeseriesTable.AccumulatedLookup | include/mist/driver.hpp:315-332 | each column receives exactly the sample's values of its name, in order |
| TimeseriesTable.AccumulatedTotal | include/mist/driver.hpp:315-332 | the table grows by the sample's length |
| TimeseriesTable.AccumulatedKeepsOrder | include/mist/driver.hpp:315-332 | existing columns keep their order; new ones come after |
| TimeseriesTable.AccumulatedDistinct | include/mist/driver.hpp:315-332 | column names stay distinct |
| TimeseriesTable.AccumulateExample | include/mist/driver.hpp:315-332 | two samples into an empty table |
| Tracking.MultipleIsProduct | include/mist/driver.hpp:123 | n repeated additions of the interval equal interval * n |
| Tracking.NumbersOfSnoc | include/mist/driver.hpp:122-135 | a channel's emission numbers grow by the new emission's number |
| Tracking.SeriesDataSnoc | include/mist/driver.hpp:434-435 | a timeseries emission accumulates its sample; other emissions do not touch the table |
| Tracking.AllOnTimeSnoc | include/mist/driver.hpp:117-138 | the on-time property of a channel extends one emission at a time |
| Tracking.TrackedFired | include/mist/driver.hpp:122-124 | firing with number count+1 keeps a channel's numbering and schedule |
| Tracking.TrackedOther | include/mist/driver.hpp:117-138 | another channel's emission leaves a channel's tracking alone |
| Tracking.FiredKeepsTracked | include/mist/driver.hpp:117-138 | firing one output keeps all four tracked |
| Tracking.SameClocksKeepTracked | include/mist/driver.hpp:472 | a record change that keeps the clocks keeps all four tracked |
| Tracking.ExactFiredTracked | include/mist/driver.hpp:117-127 | an exact firing is numbered count and at exactly interval * count |
| Tracking.NearestFiredTracked | include/mist/driver.hpp:129-138 | a nearest firing is numbered count and at or after interval * count |
| Tracking.StartTracked | include/mist/driver.hpp:451-455 | before the loop every output is tracked from its first number |
| Tracking.SeriesDataInitial | include/mist/driver.hpp:451-455 | the initial outputs add one timeseries sample of the initial state |
| Driver.MakeOutput | include/mist/driver.hpp:372-436 | an output is built iff its policy parses, with the configured interval, kind and policy |
| Driver.MakeOutputs | include/mist/driver.hpp:372-444 | all four are built iff every policy parses, in the order message, checkpoint, products, timeseries |
| Driver.MakeOutputsWellFormed | include/mist/driver.hpp:439-444 | the outputs are the four channels, in order, with the configured intervals |
| Driver.ValidateAll | include/mist/driver.hpp:446-448 | succeeds iff every output validates |
| Driver.DefaultConfigValid | include/mist/driver.hpp:166-187 | the default configuration parses and validates, with its intervals and policies |
| Driver.Fire | include/mist/driver.hpp:412-436 | a callback records an emission numbered with the channel's count; only the timeseries callback changes the record |
| Driver.ExactHandled | include/mist/driver.hpp:117-127 | the handler fires iff the output is due over [t0, t1], fails iff it is due and the order is invalid, hands over the state integrated to the next time, and keeps every output tracked |
| Driver.ExactPass | include/mist/driver.hpp:467-469 | the loop equals `ExactPassOf`, the exact handlers of the four outputs in index order stopping at the first error; it keeps every output tracked and the table equal to the accumulated samples |
| Driver.NearestPass | include/mist/driver.hpp:474-477 | the loop equals `NearestPassOf`, the nearest handlers of the four outputs in index order; it keeps every output tracked and the table accumulated |
| Passes.ExactPassFires | include/mist/driver.hpp:117-127 | with a valid order the exact pass completes; its callbacks are exactly those of the outputs due against the starting clocks, in index order, each clock of a due output moves on once and no other, and the table takes exactly the timeseries callbacks |
| Passes.ExactPassRejects | include/mist/driver.hpp:117-127 | with an invalid order the exact pass fails iff some output is due, and nothing fires |
| Passes.ExactPassStops | include/mist/driver.hpp:467-469 | once a handler has failed, the rest of the pass changes nothing |
| Passes.NearestPassFires | include/mist/driver.hpp:129-138 | the nearest pass's callbacks are exactly those of the nearest outputs due on the state against the starting clocks, in index order, with the same clock and table facts |
| Passes.NearestEmissionsSameClocks | include/mist/driver.hpp:129-138 | which nearest outputs are due depends only on the nearest outputs' clocks |
| Passes.SeriesDataAppend | include/mist/driver.hpp:315-332 | the table after two runs of callbacks is the table after their concatenation |
| Passes.FiredEffect | include/mist/driver.hpp:412-436 | a callback appends its emission, keeps every clock, and accumulates only the timeseries sample |
| Driver.PassFires | include/mist/driver.hpp:464-477 | one loop pass fails iff the order is invalid, with nothing fired; otherwise it takes the step and appends first the exact outputs due over [t0, t0 + dt], then the nearest outputs due on the new state, each in index order; the due outputs' clocks move on once, the iteration goes up by one, the table takes the timeseries callbacks |
| Driver.PassEmissions | include/mist/driver.hpp:464-477 | a pass that takes its step has a valid order and appends first the exact outputs due over [t0, t0 + dt], then the nearest outputs due on the new state |
| Driver.PassedStep | include/mist/driver.hpp:458-478 | a further pass extends the loop's record of states, driver records and callbacks |
| Driver.Started | include/mist/driver.hpp:360-366 | a first run sets every next time to its interval; a restart keeps the record |
| Driver.InitSchedule | include/mist/driver.hpp:360-366 | the record becomes `Started` |
| Driver.InitialOutputs | include/mist/driver.hpp:451-455 | outputs 1 to 3 fire on the initial state; only the timeseries table changes |
| Driver.FreshStartOnSchedule | include/mist/driver.hpp:360-366 | a fresh record, once started, is on schedule |
| Driver.RanAdvancesTime | include/mist/driver.hpp:464-471 | each pass advances time by cfl * courant_time |
| Driver.RanDetermined | include/mist/driver.hpp:458-478 | two runs from one state agree on every state both reached |
| Driver.RanStep | include/mist/driver.hpp:458-478 | a run extends by one step while before t_final |
| Driver.ExactThenStep | include/mist/driver.hpp:464-472 | the first half of a pass equals `ExactThenStepOf`: the exact pass, then on success the step and iteration++; a failure is the order error with an invalid order and leaves the iteration alone; every output stays tracked and the table accumulated |
| Driver.Iteration | include/mist/driver.hpp:464-477 | the pass equals `PassOf`; on success the callbacks are those before it, then the exact outputs due over [t0, t0 + dt], then the nearest outputs due on the new state; every output stays tracked, the table accumulated, the iteration goes up by one and the run extends by the new state |
| Driver.Evolve | include/mist/driver.hpp:458-478 | every pass of the loop is a `PassOf` step from the state, record and callbacks the previous one left; the loop keeps every output tracked and the table accumulated, and stops at t_final or max_iter (or when its fuel runs out) |
| Driver.Run | include/mist/driver.hpp:343-481 | a bad policy or an invalid output fails before any output; otherwise the initial outputs, then the loop, each pass a `PassOf` step; every emission is numbered and, from a fresh start, on time; the table holds exactly the timeseries samples |

## Left out

- Driver.Evolve: the main loop `while (true)` (include/mist/driver.hpp:458) need not terminate, e.g. with courant_time <= 0 and max_iter <= 0. The model's loop takes a `fuel` bound and stops with `FuelExhausted` when it runs out; nothing is claimed about a run longer than the fuel.
- Driver.Run: inherits the fuel bound of Evolve.
- Scheduling.HandleNearest: `get_time` is a total function here. The source's get_time may throw `out_of_range` for an unsupported interval_kind (include/mist/driver.hpp:132), which would leave run; that exception is not modelled.
- DriverStates.DriverState.CountIteration: the iteration and the four counters are C++ `int` (include/mist/driver.hpp:146-150); here they are unbounded, so overflow is not modelled.
- Indexing.Size: the source multiplies in `unsigned int` (mist.hpp:304-310) and wraps on overflow; here the product is unbounded.
- Indexing.NdOffset: for an index outside the space the model returns the unwrapped integer offset, which may be negative or at least the size. The source converts a negative difference to `size_t` and wraps mod 2^64 (mist.hpp:333); that wrap is not modelled.
- Vec.Add: components are integers only (`ivec_t`), unbounded, so overflow is not modelled. `dvec_t` and the promotion of mixed component types (mist.hpp:168) are not modelled. The same holds for Vec.Sub, Vec.Scale, Vec.ScaleLeft, Vec.Div, Vec.Dot, Vec.Sum and Vec.Product.
- Text.ParseInt: accepts a digit run of any size. The source's `>>` into `int` fails on overflow, and read_value then throws (include/mist/ascii_reader.hpp:300-302).
- AsciiReading.Reader.ReadValue: a floating value is kept as the token text. The model accepts any non-empty token, such as ".", "e" or "+-", whereas the source's `>>` into `double` rejects these and read_value throws. The decimal conversion (`setprecision(15)`, `istringstream`) is not modelled.
- AsciiReading.Reader.ReadDynamicArray: on an error the model returns the error and no value. The source has already cleared its target and pushed the values read so far (include/mist/ascii_reader.hpp:108-119).
- Serialization.EventReader.DeserializeValue: on an error the model returns the error and no value. The source has already resized a vector of structs and overwritten the elements read so far (include/mist/serialize.hpp:242-249).
- AsciiReading.InputStream.Peek: the C++ stream reads bytes and returns EOF as `(char)-1`. Here the text is a sequence of Unicode characters and EOF is U+00FF, so a U+00FF character in the text reads like the end of input, as byte 0xFF does in the source.
- AsciiReading.Reader.CountGroups: braces inside quoted strings are counted like any other, as in the source (include/mist/ascii_reader.hpp:196-218); the round-trip lemmas assume bodies of balanced groups.
- Serialization: the serialize walk calls archive methods (`write_vec`, `write_scalar_vector`, `begin_compound_vector`, `begin_compound_vector_element` and their readers) that the ASCII archive does not declare, so serialize is modelled against an abstract archive that records its calls as events, not against the ASCII text.
- Serialization.Conforms: integral and floating scalars are not distinguished by the target type; a scalar target accepts either.
- The physics module (`euler_step`, `average`, `courant_time`, `get_time`, `timeseries_sample`, `get_product`, `zone_count`, `initial_state`) is abstract: the model takes these as closures over reals. Floating-point rounding is not modelled.
- The callbacks' I/O is left out: the iteration message with its wall-clock rate (include/mist/driver.hpp:379-403), and the checkpoint and products files (include/mist/driver.hpp:262-307). The model records each callback as an emission with its channel, number and state.
- The wall clock (`get_wall_time`, include/mist/driver.hpp:334-337) is left out with the message it feeds.
- Restarting from a checkpoint file is modelled only as running from a given driver state; reading the file is left out.
- The configuration's `fields()` reflection tuple (include/mist/driver.hpp:189) is not modelled; the configuration is a record.
- The OpenMP and CUDA branches of `for_each` (mist.hpp:468-491) are left out; the sequential branch is modelled.
