# CPlugin parameter protocol and session registry, in Dafny

This project models the core of CPlugin. CPlugin is a Python host (PluginModel.py) that loads a native scattering-model module. It describes the module's parameters, keeps model sessions, and hands each session's parameter values to the native side in a hand-built binary buffer. The native side reads that buffer through the `Parameters` class of SimpleModel/ModelInfo.h.

The buffer is made of machine words of the platform's `size_t` width W (4 or 8 bytes) and 8-byte doubles, all in the platform's byte order:

- a count word holding n + 1;
- the offsets `offsets[0..n]`;
- record i at `header_end + offsets[i]`. A Simple record is a tag `0xAAAAAAA1` and one double. A Polydisperse record is a tag `0xAAAAAAA2`, `npoints`, the values and then the weights;
- an End tag `0xAAAAAAA0` at `header_end + offsets[n]`.

Doubles are kept as opaque 64-bit patterns.

The modules follow the program:

- `Wire` (wire.dfy): words, doubles, byte orders and the byte-level round trip of a word.
- `Protocol` (protocol.dfy): the flag bits and record tags both sides declare, and the two ways the sides test a flag.
- `Metadata` (metadata.dfy): `ParameterInfo`, the native descriptor, the host's `ModelInfo` with its flag lists, and `get_model_info`'s copy loop with its version check.
- `Store` (store.dfy): `PluginModelParameterCollection`, a class over a dictionary whose key set never changes, and the default values a new session gets.
- `Encoder` (encoder.dfy): `_get_cparameters`. `Encode` is the functional specification. `GetCParameters` is the two-pass imperative version: a size pass, then a write pass into a byte array. It is proved equal to `Encode`.
- `Decoder` (decoder.dfy): the native reader. It covers the `Parameters` constructor (a loop with early returns), `valid()`, `valid(model_info)`, `count()`, `operator[]` and the record views with `Values`/`Weights` indexing, all over a memory of bytes.
- `Layout` (layout.dfy) and `RoundTrip` (roundtrip.dfy): where each part of an encoded buffer lies, and the cross-file theorem. Whatever buffer the encoder returns, the reader accepts it and every parameter reads back as stored; for a model with at least one parameter the buffer is also valid for the model. A model with no parameters encodes to an End-only buffer, which the reader accepts with count 0 but `valid()` rejects (RoundTrip.EmptyModelEndOnly).
- `Registry` (registry.dfy): `PluginModelFactory` and `PluginModel` as classes. It covers loading and unloading, model ids, the id -> native handle dictionary, creation, destruction and the five calculations. Native entry points may be exported or absent. Every native call the model makes (`get_model_info`, `create_model`, `destroy_model` and the calculations) is appended to a log.

Three behaviours of PluginModel.py that the model keeps as written:

- `load` fails unless the module exports `calculate_ER` and `calculate_VR`. `loadfunction` is given no default for them (PluginModel.py:258-259), so a missing symbol raises and `load` unloads again.
- The descriptor version is checked only in `get_model_info` (PluginModel.py:290-291). `create_model` calls it (line 324); `load` does not.
- `create_model` registers the new id and the native handle (line 322) before it calls `get_model_info`. On a version mismatch the entry therefore stays in `_created_models`.

## Model

| member | source | states |
|---|---|---|
| Wire.WidthOf | PluginModel.py:349 | the pack format is 'I' exactly when `sizeof(c_size_t)` is 4, otherwise 'Q'; on 4- and 8-byte ABIs the packed word is exactly `sizeof(c_size_t)` bytes, the width the size pass adds per word |
| Wire.RoundTrip | PluginModel.py:381-384 | a word packed in either byte order and read back in the same order gives the value packed |
| Wire.DecodeBound | SimpleModel/ModelInfo.h:222 | a word read from k bytes is below 256^k |
| Wire.Put | PluginModel.py:382 | `pack_into` writes the bytes at the offset and keeps every byte before and after them |
| Protocol.PolydisperseTestsAgree | SimpleModel/ModelInfo.h:263 | the reader's `(Flags & PF_Polydisperse) == PF_Polydisperse` and the host's truthy `flags & Polydisperse` agree on every flag word |
| Protocol.RepeatCountIsUnfittable | PluginModel.py:55 | a parameter flagged RepeatCount also has the Unfittable bit |
| Protocol.TagsFit | PluginModel.py:85-88 | the three record tags are distinct and each fits a word on both widths |
| Metadata.NamesWithMembers | PluginModel.py:104-108 | a name is in a flag list exactly when some parameter of that name has the flag bit |
| Metadata.NamesWithAppend | PluginModel.py:104-108 | a flag list keeps parameter order: the list of a concatenation is the concatenation of the lists |
| Metadata.NamesWithLength | PluginModel.py:104-108 | a flag list is no longer than the parameters, and as long when every parameter has the flag |
| Metadata.ModelInfo.Orientation | PluginModel.py:104 | `orientation` lists exactly the names of the parameters with the Orientation bit, and is no longer than the parameters |
| Metadata.ModelInfo.Magnetic | PluginModel.py:105 | `magnetic` lists exactly the names of the parameters with the Magnetic bit, and is no longer than the parameters |
| Metadata.ModelInfo.Unfittable | PluginModel.py:106 | `unfittable` lists exactly the names of the parameters with the Unfittable bit, and is no longer than the parameters |
| Metadata.ModelInfo.Integer | PluginModel.py:107 | `integer` lists exactly the names of the parameters with the Integer bit, and is no longer than the parameters |
| Metadata.ModelInfo.Polydisperse | PluginModel.py:108 | `polydisperse` lists exactly the names of the parameters with the Polydisperse bit, and is no longer than the parameters |
| Metadata.RepeatCountListedUnfittable | PluginModel.py:106 | a RepeatCount parameter is listed in `unfittable` |
| Metadata.GetModelInfo | PluginModel.py:288-310 | raises exactly when the descriptor version is not 1; otherwise copies name, description and every parameter in order |
| Store.ParameterCollection.constructor | PluginModel.py:158-159 | the collection holds exactly the initial dictionary |
| Store.ParameterCollection.Len | PluginModel.py:160-161 | `len` is the number of stored names, and 0 exactly when the collection is empty |
| Store.ParameterCollection.Get | PluginModel.py:162-163 | a lookup succeeds exactly on the stored keys; Set's contract is stated through it: an assignment is read back, a refused one still finds nothing, and every other key reads as before |
| Store.ParameterCollection.Set | PluginModel.py:164-175 | assigning a stored key replaces its value, so `Get` returns it; an absent key raises AttributeError and changes nothing; every other key's lookup is unchanged; keys and length never change |
| Store.ParameterCollection.Delete | PluginModel.py:168-169 | deletion always raises and changes nothing |
| Store.DefaultParametersKeys | PluginModel.py:325-327 | the default collection has exactly the parameters' names as keys |
| Store.DefaultParametersValue | PluginModel.py:325-327 | when no later parameter has the same name, a parameter's default is its declared default, or the one-point distribution [default] with weight [1.0] when it is polydisperse |
| Encoder.OffsetsStep | PluginModel.py:354-371 | offsets[i+1] = offsets[i] + size of record i |
| Encoder.OffsetsMonotone | PluginModel.py:354-371 | offsets never decrease |
| Encoder.MeasureRecord | PluginModel.py:356-369 | the size pass for one parameter computes that record's size, or the KeyError of a missing polydisperse value |
| Encoder.MeasureRecords | PluginModel.py:352-371 | the size-pass loop returns offsets of n + 1 entries from 0, or the first parameter's KeyError |
| Layout.RecordSizes | PluginModel.py:356-369 | unfolds the size definition: a Simple record is W + 8 bytes and a Polydisperse record 2W + 16·npoints |
| Layout.HeaderCount | PluginModel.py:382-384 | unfolds the header definition: the count word is len(offsets), which is n + 1 and not n, followed by the offsets |
| Encoder.PackHeader | PluginModel.py:381-384 | the header packs exactly when every word fits the word format, and then holds those words; the bytes after it are unchanged |
| Encoder.PackSimple | PluginModel.py:389-396 | writes a Simple record: tag 0xAAAAAAA1 and the value; the bytes before and after it are unchanged |
| Encoder.PackScalarPoint | PluginModel.py:405-415 | a scalar in a polydisperse slot is written as tag 0xAAAAAAA2, npoints 1, the value and weight 1.0; the bytes before and after it are unchanged |
| Encoder.PackDistribution | PluginModel.py:416-422 | a distribution is written as npoints values then npoints weights, unnormalised; a weight list of another length raises; the bytes before and after the record are unchanged |
| Encoder.PackRecord | PluginModel.py:387-422 | one record is written as its flags and value call for, or the error that parameter raises; the bytes before and after the record are unchanged |
| Encoder.WriteBody | PluginModel.py:386-422 | the write pass places every record at header_size + offsets[i], so the cursor matches the size pass, or stops at the first bad parameter; on success the header is unchanged; in every case the bytes past the last record are unchanged |
| Encoder.WriteRecords | PluginModel.py:378-430 | the buffer is header, records and End tag, or the first error raised |
| Encoder.GetCParameters | PluginModel.py:348-430 | the encoder returns exactly `Encode` of the model's parameters and the session's values |
| Encoder.EncodeOk | PluginModel.py:348-430 | unfolds `Encode`: with sizes known, header words that fit and every value writable, the buffer is header words + records + End |
| Encoder.EncodeOverflow | PluginModel.py:381-384 | unfolds `Encode`: a header word too wide for the word format makes the encoder raise |
| Encoder.EncodeWriteErr | PluginModel.py:387-422 | unfolds `Encode`: otherwise the first parameter whose value cannot be packed decides the error |
| Encoder.EmptyEncodes | PluginModel.py:348-430 | a model without parameters always encodes: the count word 1, the offset 0 and End all fit |
| Encoder.WritableSizes | PluginModel.py:352-371 | values the write pass accepts also pass the size pass |
| Encoder.WritableEncodes | PluginModel.py:348-430 | with values the write pass accepts, the encoder fails only on a header word too wide for the word format |
| Layout.EncodedLength | PluginModel.py:375-379 | the buffer length is exactly header_size + data_size |
| Layout.HeaderWordAt | PluginModel.py:381-384 | word k of the buffer holds header word k |
| Layout.RecordAt | PluginModel.py:386-422 | record i lies at header_size + offsets[i] and ends at header_size + offsets[i+1] |
| Layout.EndAt | PluginModel.py:424-428 | the End tag lies at header_size + offsets[n] and is the last word of the buffer |
| Layout.SimpleRecordShape | PluginModel.py:388-396 | unfolds the record definition: a non-polydisperse parameter's record is tag 0xAAAAAAA1 and its scalar value |
| Layout.ScalarIsOnePoint | PluginModel.py:399-415 | unfolds the record definition: a scalar in a polydisperse slot is encoded as the distribution [v] with weight [1.0] |
| Layout.DistributionRecordShape | PluginModel.py:416-422 | unfolds the record definition: a distribution's record is tag, npoints = len(values), all values then all weights |
| RoundTrip.EncodedLaidOut | PluginModel.py:348-430 | every encoded buffer has the header, each record and the End tag where the reader looks for them |
| Decoder.Parse | SimpleModel/ModelInfo.h:215-247 | the constructor's result is all unset or has count + 1 in the count word, every record tag Simple or Polydisperse and End last |
| Decoder.CheckTags | SimpleModel/ModelInfo.h:232-237 | the tag loop succeeds exactly when records 0..n-1 all carry a Simple or Polydisperse tag |
| Decoder.NewParameters | SimpleModel/ModelInfo.h:215-247 | the constructor's loop with early returns sets exactly the fields `Parse` describes |
| Decoder.NullOrEmptyRefused | SimpleModel/ModelInfo.h:215-228 | NULL or a header count of 0 leaves count 0 and NULL pointers, so `valid()` is false |
| Decoder.AcceptanceRule | SimpleModel/ModelInfo.h:230-246 | the buffer is accepted exactly when records 0..count-2 are Simple or Polydisperse and record count-1 is End |
| Decoder.AcceptedCount | SimpleModel/ModelInfo.h:274-276 | `count()` of an accepted buffer is the header count minus the End record |
| Decoder.Parameters.Valid | SimpleModel/ModelInfo.h:250-252 | `valid()` holds only for a buffer the constructor accepted that has at least one record |
| Decoder.EndOnlyNotValid | SimpleModel/ModelInfo.h:250-252 | an accepted buffer with only the End record is not valid |
| Decoder.Parameters.ValidFor | SimpleModel/ModelInfo.h:253-273 | `valid(model_info)` implies `valid()`, one record per parameter, and a Simple or Polydisperse tag on every record |
| Decoder.Parameters.At | SimpleModel/ModelInfo.h:277-281 | `operator[]` is NULL at or past count, and otherwise base + offsets[i] |
| Decoder.AtInside | SimpleModel/ModelInfo.h:277-281 | on a valid buffer every index below count gives a record with a Simple or Polydisperse tag |
| Decoder.EndValid | SimpleModel/ModelInfo.h:79-81 | `EndParameter::valid()` holds only where a whole tag word lies in memory |
| Decoder.SimpleValid | SimpleModel/ModelInfo.h:89-91 | `SimpleParameter::valid()` holds only on a whole tag word, and never together with the End or Polydisperse check |
| Decoder.PolydisperseValid | SimpleModel/ModelInfo.h:166-168 | `PolydisperseParameter::valid()` holds only on a whole tag word, and never together with the End check |
| Decoder.RecordKindsExclusive | SimpleModel/ModelInfo.h:79-168 | at most one of the End (79-81), Simple (89-91) and Polydisperse (166-168) `valid()` checks holds for a record |
| Decoder.SimpleValue | SimpleModel/ModelInfo.h:195-197 | a value is read only from a Simple record, and a Simple record's value is the double after its tag |
| Decoder.AsPolydisperse | SimpleModel/ModelInfo.h:201-203 | a record is seen as Polydisperse exactly when its tag says so |
| Decoder.ValueAt | SimpleModel/ModelInfo.h:110-119 | `values[i]` exists only for i < npoints, and for every i < npoints it is the i-th double after type and npoints |
| Decoder.WeightAt | SimpleModel/ModelInfo.h:137-146 | `weights[i]` exists only for i < npoints, and for every i < npoints it is the (npoints + i)-th double |
| RoundTrip.RecordLaidReads | SimpleModel/ModelInfo.h:95-147 | an encoded record reads back as its parameter: the scalar, or npoints with every value and weight |
| RoundTrip.PastLastPoint | SimpleModel/ModelInfo.h:110-146 | on an encoded record, `values[j]` and `weights[j]` have no element for j >= npoints |
| RoundTrip.LaidOutReads | SimpleModel/ModelInfo.h:222-246 | on a laid-out buffer the reader finds the count, each record's tag and the End tag at the encoded offsets |
| RoundTrip.ReaderAccepts | SimpleModel/ModelInfo.h:215-273 | such a buffer is accepted, valid for the model, has one record per parameter, and each reads back as stored |
| RoundTrip.CrossFileRoundTrip | PluginModel.py:348-430 | whatever `_get_cparameters` returns for a model with at least one parameter is accepted by `Parameters`, satisfies `valid(model_info)`, and decodes to the values, npoints and weights encoded |
| RoundTrip.EmptyModelEndOnly | PluginModel.py:348-430 | for a model with no parameters, whatever `_get_cparameters` returns is accepted by `Parameters` with `count()` 0, and `valid()` is false for it |
| RoundTrip.DefaultsWritable | PluginModel.py:325-327 | when the parameter names are distinct, the write pass never fails on a new session's default values |
| RoundTrip.DefaultsEncode | PluginModel.py:325-327 | when the parameter names are distinct, the size pass succeeds on a new session's defaults, and only an oversized header word can stop the encoder |
| RoundTrip.WritableUnderOtherKey | PluginModel.py:387-422 | the write pass does not depend on keys no parameter uses |
| Registry.ResolveRule | PluginModel.py:248-259 | a module loads exactly when it exports get_model_info, calculate_ER and calculate_VR; each other entry point is the module's own exactly when exported |
| Registry.Guard | PluginModel.py:434-437 | a session call proceeds exactly when the id is registered and the entry points are set; an unknown or cleared id raises ValueError |
| Registry.PointsRule | PluginModel.py:461-470 | an absent coordinate list means a call with count 0; otherwise lists of unequal length raise and equal ones give their length |
| Registry.Output | PluginModel.py:243-246 | the result has n entries: NaN from the host's fallback, otherwise what the native call wrote |
| Registry.CalculateRule | PluginModel.py:433-502 | an unknown id raises with no native call; an absent input makes a count-0 call and returns []; unequal lengths raise with no call; a result has the input's length |
| Registry.RegisteredIsLoaded | PluginModel.py:314-322 | a registered id implies a loaded module, so only the id check can fail |
| Registry.DestroyCallsHandles | PluginModel.py:269-271 | unload's k-th destroy call is for the k-th registered id's handle |
| Registry.PluginModelFactory.constructor | PluginModel.py:192-208 | a new factory has no module, no sessions and next id 1 |
| Registry.PluginModelFactory.Unload | PluginModel.py:267-285 | every registered handle is destroyed once through the module's destroy, and the map and entry points are cleared; ids are not reused |
| Registry.PluginModelFactory.Load | PluginModel.py:218-265 | unloads first; succeeds exactly when symbol resolution does; a failure leaves the factory unloaded |
| Registry.PluginModelFactory.GetModelInfo | PluginModel.py:288-310 | one logged native `get_model_info` call; the descriptor is version-checked and copied; the registry is unchanged |
| Registry.PluginModelFactory.CreateModel | PluginModel.py:313-329 | raises when unloaded; otherwise uses up the next id; a native create that raises registers nothing; otherwise the id is registered with the handle, the native create and `get_model_info` calls are logged, and a version check decides between the error and a fresh session with default values whose `get_model_info()` is the descriptor's name, description and parameters |
| Registry.PluginModelFactory.DestroyModel | PluginModel.py:331-345 | an unknown id raises and changes nothing; otherwise the entry is popped and the session's fields cleared even when the native destroy raises |
| Registry.PluginModelFactory.Encoded | PluginModel.py:440 | the buffer handed to a native calculation is `Encode` of the session's parameters; it is missing (an attribute of None) exactly when the model information is cleared, or the values are cleared and the model has parameters; a model without parameters is encoded even with cleared values |
| Registry.NoParametersEncode | PluginModel.py:348-430 | a session of a model without parameters always gets a buffer, whatever its values field holds |
| Registry.PluginModelFactory.CalculateList | PluginModel.py:433-502 | result and native calls are those of `Calculate`; the registry is unchanged |
| Registry.PluginModelFactory.CalculateQ | PluginModel.py:433-450 | `calculate_q` is `Calculate` with one coordinate list |
| Registry.PluginModelFactory.CalculateQxQy | PluginModel.py:452-475 | `calculate_qxqy` is `Calculate` with two coordinate lists |
| Registry.PluginModelFactory.CalculateQxQyQz | PluginModel.py:477-502 | `calculate_qxqyqz` is `Calculate` with three coordinate lists |
| Registry.PluginModelFactory.CalculateScalar | PluginModel.py:505-525 | `calculate_ER`/`calculate_VR` raise on an unknown id or an encoding error; otherwise one native call, returning its result |
| Registry.PluginModel.constructor | PluginModel.py:123-127 | a session holds its factory, id, model info and parameters |
| Registry.PluginModel.GetModelInfo | PluginModel.py:133-134 | returns the session's model info; CreateModel's contract gives a new session's `get_model_info()` as the loaded descriptor's name, description and parameters, and DestroyModel's and Destroy's give None after a destroy |
| Registry.PluginModel.Destroy | PluginModel.py:137-138 | the factory ends as `destroy_model` leaves it: an unknown or cleared id raises and changes nothing; otherwise the entry is popped, the native destroy is logged, the result fails exactly when that destroy raises, and the session's fields are cleared; module, path and counter are unchanged |
| Registry.PluginModel.CalculateQ | PluginModel.py:141-142 | result and logged native calls are those of `Calculate` with one list; the registry is unchanged; a cleared session raises |
| Registry.PluginModel.CalculateQxQy | PluginModel.py:144-145 | result and logged native calls are those of `Calculate` with two lists; the registry is unchanged; a cleared session raises |
| Registry.PluginModel.CalculateQxQyQz | PluginModel.py:147-148 | result and logged native calls are those of `Calculate` with three lists; the registry is unchanged; a cleared session raises |
| Registry.PluginModel.CalculateScalar | PluginModel.py:150-154 | as the factory's `calculate_ER`/`calculate_VR`: an unknown id, cleared values of a model with parameters, or an encoding error raise with no native call; otherwise one logged native call whose result is returned; the registry is unchanged |
| Registry.DestroyTwice | PluginModel.py:331-345 | after one destroy, a second destroy of the same session raises |

## Left out

- Library loading: `LibraryHandle`, `ctypes.CDLL` and the `argtypes`/`restype` set-up are foreign-function plumbing. A module is described only by the symbols it exports and its descriptor.
- What the native calculations compute: their results are method parameters (`written`, `result`, `created`, `raised`). The host fallbacks are modelled: the calculation fills NaN, create returns NULL, destroy does nothing.
- Floating point: doubles are opaque 64-bit patterns. Python's conversion of an int or float to `'=d'` is not modelled. A value is stored as its pattern.
- `PolydisperseParameter(values)` without weights computes 1/len(values) in floating point. It is not modelled. Distributions carry explicit weights, and `create_model`'s defaults use [1.0].
- SampleModel/ModelInfo.h and the SampleModel sources use an older, incompatible layout. They are not part of this model.
- `__del__` finalizers, the `Test` demo and printing are left out.
- Registry.PluginModelFactory.Unload: the native destroy is modelled as returning normally. In the code a raising destroy aborts `unload` half-way. The iteration order of `_created_models` is a ghost permutation of its keys.
- Registry.PluginModelFactory.Load: the module is resolved from `Exports` in one step. `LibraryHandle.open` failing on a bad path is not modelled.
- Store.ParameterCollection.Set, Store.Value: a `PolydisperseParameter` is a mutable object held by reference. Editing its `values` or `weights` in place (as in `model.parameters.radius.values = ...`) bypasses `__setattr__`. The model keeps a distribution as an immutable value and models such an edit as a `Set` of a new distribution. Sharing one object under two keys or between two sessions, where an edit shows through both, is not modelled.
- Registry.PluginModelFactory.CreateModel: a native `create_model` that raises is an input flag (`createRaised`). The exception it would carry is not modelled.
- Metadata.Descriptor: the native `parameter_count` is not a separate field. It is taken to be the length of the descriptor's parameter array, so a count that disagrees with the array is not modelled.
- The entry points are set and cleared together in the code, so the model keeps them as one optional `Library`.
- Decoder.Parse: a read past the end of memory is undefined behaviour in C. Here it is a failed read, which makes the check refuse the buffer.
- Decoder.ValueAt, Decoder.WeightAt: the source dereferences NULL for an index of npoints or more. Here there is no element.
- `operator double&` and `operator PolydisperseParameter&` dereference NULL for a record of the other kind. Decoder.SimpleValue and Decoder.AsPolydisperse return None instead.
