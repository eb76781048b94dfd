# aping: a model and its proofs

aping sends ICMP packets and watches what comes back. This project models the parts of it that compute something, and
proves what they promise:

* **Neural network** (`neuralnetwork.c`). `Graph` builds and releases the fully connected graph; `Crc` and `Burst` are
  the check value of a saved file; `Image`, `Save`, `Load`, `RoundTrip` and `SizeCheck` write and read the file, and
  `Layout` says where everything stands in it; `Fire`, `Forward`, `Backward` and `Network` are `fire_nn`, `Settle`,
  `Enough` and `Calls` what repeated calls come to, `Logistic` what its activation is, `Gradient`, `Chain` and
  `Backprop` what its errors are. For storage a double is the eight bytes that are copied; for `fire_nn` it is a real
  number and `exp` any positive function, where that is said an injective or growing one, and for the derivatives one
  that turns sums into products and lies above its tangent at 0 (`Logistic.IsExp`), as the exponential does.
* **Shared-memory ring** (`wmdata.c`). `Ring` has the arena in memory and a state machine in which one writer (flag,
  then store) and any number of polling readers interleave. Each copy of a bucket is one step; `Torn` is about copies
  that are not.
* **Statistics** (`statistic.c`, `receiver.c`, `macro.h`). `Machine` is the arithmetic of `int` and `long`,
  `Expectation` the accumulator table `E`, `Statistic` the integer root and the variance, `Rounding` is `magic_round`,
  `Agents` the ip_id agents over whole runs of packets and key strokes, `Clock` the times kept between packets and
  `Pending` what they mean, `Receiver` the per-packet work on the globals.
* **Internet checksum** (`chksum.c`, `sender.c`). `Checksum` is the routine against addition with end-around carry
  (sections 1 and 2 of RFC 1071), `OnesComplement` what follows from it.
* **Name cache** (`ns-cache.c`). `Lookup` is the direct-mapped cache as a value, `NsCache` the tables, the ring of
  returned strings and the mutex in memory.

`Wrappers` holds Option and Result, `Arithmetic` one fact about division. Code that works in place is a class or a
method, proved against functions of the values involved; the main results are lemmas about those functions, over all
inputs or all runs.

The errors that `fire_nn` leaves in a layer are shown to be minus the derivatives of the network error by the states
of its neurons, gain and all, where the layers behind have the activations of what they are sent
(`ErrorsAreDerivatives`): that is so of the last layer after every call (`LastFeedsOn`), and of all layers behind the
first once the network shows its formula (`RunFeedsOn`).

Some results say that the code does not do what its comments suggest. They are stated together with the exact
condition under which it does:

* the size check of `load_nn` is computed modulo 2^32: for every file with a layer table it passes just if the file
  has less than 2^32 octets and the reads end a multiple of 2^32 behind its end (`SizeCheckIff`), and there is a file
  that passes both checks and whose reads end far outside (`WrappedFile`);
* a single call of `fire_nn` gives a neuron its value of the network as a formula just if the outputs shown before the
  call, with what was waiting, add up to the sum of the formula already (`OneCallShowsIff`). For every network of n >
  1 layers to show its formula it takes n calls, n - 1 from zero states, and one with the gain 0 that `create_nn`
  leaves, and no fewer (`CallsSufficeIff`). The rows that `feed_from_file` reads as inputs never matter
  (`RowsDoNotMatter`);
* the computed size of `save_nn` wraps as well: what it writes stays inside its buffer just if the true size is below
  2^32 (`WritesStayInsideIff`), and two layers of 9460 neurons fill a buffer of a megabyte with four gigabytes
  (`FourGigabytes`);
* a foreign address in a slot of `E` is refused just if the sum kept there is not 0 (`CollisionIsSeenIff`,
  `MissedCollision`);
* `E` keeps its sums in 64 bits: a mean or mean square is shown just if the sum of the powers fits in
  (`MeanIsShownIff`, `MeansAreShownIff`, `MeansTrueIff`). Two timestamp replies at midnight make `report` take the
  root of a negative variance (`TwoStampsOverflow`); below 2^24 milliseconds a round trip does no harm
  (`ShortRoundsAreTrue`);
* the difference of two ip_ids is one too small where the id has passed 65535 (`DifferenceIsModularIff`), and
  reverting the byte order inverts a bit that `ntohss` does not look at (`ReadingNeverChanges`,
  `RevertingDoesNotHelp`);
* `magic_round` counts in an int: for every period and every argument it ends just if the argument is below the
  greatest int that the power of two in the period divides (`LoopEndsIff`), and so never for an argument of 2^31 or
  more. A packet that echoes an old enough time makes the program loop for ever (`OldEchoHangs`). Where it ends, for a
  positive period and an argument that is not negative, it gives the nearest multiple just if the first multiple above
  the argument is an int (`RoundedIsMultipleIff`); with the usual period of 1000 that is so below 2147483000
  (`UsualPeriod`);
* where a packet brings a burst, `bandwidth_predictor` divides by zero just if a time stamp is present and not later
  than the last one, or, without one, if the period is below 2 ms and the estimate from the numbers before the call is
  as `IsZero` says (`PendingIsZeroIff`, spelt out by `ShortPeriodIsZeroIff`; `Receive`). The second of two timestamp
  replies in the same millisecond does it, and so does any packet of another kind after a timestamp reply
  (`SecondReplyCrashes`). With a negative period the time, and so the burst, can be negative
  (`NegativePeriodIsNegative`);
* after `TIME_ADJUST` a round trip is exact just if it fits in a long and the microseconds of the later time are not
  below those of the earlier one, or below them by whole milliseconds; one that fits in is otherwise two milliseconds
  too great (`AdjustedIsExactIff`);
* `watermark_init` compares where its comments and names suggest that it assigns, so all ids start at 0, and only the
  check value keeps message 0 from being read out of an empty arena (`BlankFails`);
* with `allow_reverse` on, the cached lookup gives the name of an address just if no insertion of it survives that was
  made with `allow_reverse` off, or the name is the numeric form (`NameIsGivenIff`). The program only ever turns the
  switch off, and so is right in every run (`SwitchIsTransparent`); turned on again it would not be
  (`TurningOnShows`).

## Model

| member | source | states |
|---|---|---|
| Graph.AllocNeuro | neuralnetwork.c:78-88 | a new zeroed neuron with a forward vector of the size of the next layer and a backward one of the size of the layer before, null where that is 0; exactly these blocks become live |
| Graph.Append | neuralnetwork.c:89-91 | the new neuron goes to the end of the list, which runs through all neurons in order |
| Graph.AllocLayer | neuralnetwork.c:66-95 | a layer of exactly the asked size, all its blocks new, all numbers zero; its first pointer leads to its first neuron and each neuron to the next, the last to none |
| Graph.AppendLayer | neuralnetwork.c:258-262 | the new layer goes to the end of the list of layers |
| Graph.AllocLayers | neuralnetwork.c:255-263 | the layers of a network of the asked widths, each vector as long as the adjacent layer; each layer leads to the next, and none back yet |
| Graph.Aim | neuralnetwork.c:120-126 | link j of the vector reaches neuron j of the other layer |
| Graph.LinkForward | neuralnetwork.c:117-128 | every neuron of the first layer reaches all of the second, in order |
| Graph.LinkBackward | neuralnetwork.c:134-145 | every neuron of the second layer reaches all of the first, in order |
| Graph.LinkPair | neuralnetwork.c:117-145 | both loops of link_layers; the weights stay zero |
| Graph.Store | neuralnetwork.c:110-111 | the two stores thread a pair of layers; all other threads stay |
| Graph.LinkLayers | neuralnetwork.c:101-150 | threads and connects one pair of layers both ways; the pairs before it stay linked and those behind it as allocated |
| Graph.LinkAll | neuralnetwork.c:267-273 | all adjacent layers are connected both ways, and every layer leads to the next and back to the one before |
| Graph.CreateNN | neuralnetwork.c:241-276 | for every number of layers: the exit just for fewer than two, the read through null just where nothing is left of 16 bits; else a network of exactly the asked widths (their number cut to 16 bits), fully connected, all zero, its lists threaded from first to last, and only its blocks are newly live |
| Graph.LinksGoThereAndBack | neuralnetwork.c:117-145 | forward link j of neuron i reaches neuron j of the next layer, whose backward link i returns to neuron i |
| Graph.NeuronsByList | neuralnetwork.c:77-92 | m steps along the list of a layer lead to neuron m, and out of it behind the last: going by position is following the list |
| Graph.LayersByList | neuralnetwork.c:255-273 | the same for the layers, whose list leads back as well |
| Graph.NextIsNew | neuralnetwork.c:199-206 | the blocks of a neuron are none of those already released for the neurons before it |
| Graph.NextLayerIsNew | neuralnetwork.c:225-230 | the blocks of a layer are none of those already released for the layers before it |
| Graph.FreeNextNeuro | neuralnetwork.c:199-207 | one round: the next neuron is read while this one is live, then exactly the blocks of this one are freed |
| Graph.FreeLayer | neuralnetwork.c:193-211 | following the list to its end frees exactly the blocks of the layer, each live when it is read and when it is freed |
| Graph.FreeNext | neuralnetwork.c:225-230 | one round: the next layer is read while this one is live, then exactly the blocks of this one are freed |
| Graph.FreeNN | neuralnetwork.c:217-233 | following the lists releases every block of the network exactly once, none remains, and none is read after its release |
| Graph.CreateThenFree | neuralnetwork.c:217-276 | creating and releasing a network leaves the allocator as it was |
| Crc.FeedOctet | neuralnetwork.c:22-23 | the inner loop feeds the eight bits of the octet, lowest first |
| Crc.EthCrc | neuralnetwork.c:14-26 | the check value is the register fed with all bits of the octets; `Burst.ZeroCrcIff` says where it starts |
| Crc.PolyIsTheGenerator | neuralnetwork.c:14 | the bits of the generator spell 0x04c11db7, the polynomial of section 3.2.9 of IEEE 802.3 |
| Crc.EthCrcOfChars | wmdata.c:3-15 | the copy that reads signed chars computes the same function |
| Crc.SameLowBits | wmdata.c:11-13 | the low n bits of a number do not depend on its bits from n up |
| Crc.SignDoesNotMatter | wmdata.c:11-13 | an octet read as a negative char feeds the same eight bits |
| Burst.StepIsLinear | neuralnetwork.c:23 | differences of registers and of bits go through one turn by themselves |
| Burst.FeedIsLinear | neuralnetwork.c:20-24 | and through any number of turns |
| Burst.StepIsInjective | neuralnetwork.c:23 | one turn loses nothing of the register |
| Burst.FeedIsInjective | neuralnetwork.c:20-24 | nor do any number of turns |
| Burst.CollisionIffDifferenceVanishes | neuralnetwork.c:16-26 | two messages of equal length have equal registers just if their difference leaves the zero register at zero |
| Burst.LowBitsClear | neuralnetwork.c:23 | a register that k more bits bring to zero has its low 32 - k bits clear already |
| Burst.ShortIsSeen | neuralnetwork.c:14-26 | at most 32 bits, not all clear, move the zero register |
| Burst.BurstIsSeen | neuralnetwork.c:14-26 | two bit strings that differ only within 32 consecutive bits have the same register just if they are equal |
| Burst.GeneratorIsTheOnlyHiddenBurst | neuralnetwork.c:14-26 | of the differences of 33 bits with both ends set exactly one, the generator, goes unseen: 32 is the best bound |
| Burst.BurstChangesCrc | neuralnetwork.c:523-526 | the same for octets: a burst of at most 32 bits always changes the check value |
| Burst.BitsAreLowFirst | neuralnetwork.c:22-23 | bit 8 i + j of what is fed is the bit of octet i with the place value 2^j |
| Burst.ZeroTailIff | neuralnetwork.c:14-26 | of all tails of four octets just one brings the check value to 0: that whose bits are those of the register, from the top down |
| Burst.ZeroCrcIff | neuralnetwork.c:18-25 | the check value of no octets has all 32 bits set, and of all buffers of four octets just that of four times 255 has the check value 0 |
| Image.ReadWrittenU32 | neuralnetwork.c:384 | a number written as 32 bits reads back as itself modulo 2^32 |
| Image.WriteReadU32 | neuralnetwork.c:535 | and four read octets are written back as themselves |
| Image.BodyLength | neuralnetwork.c:329-356 | layer table, neurons and links of well-shaped contents take the computed size less the 42 octets before them |
| Image.BodyDetermines | neuralnetwork.c:380-462 | two contents of the same widths with the same bytes are the same contents |
| Save.Buffer.constructor | neuralnetwork.c:359-361 | a new zeroed buffer of the computed size, the cursor behind the four octets of the check value |
| Save.Buffer.CopyAndSeek | neuralnetwork.h:35-39 | the octets go to the cursor, which moves past them, and all octets before and behind stay |
| Save.SaveNeuro | neuralnetwork.c:399-401 | state, output and error in this order |
| Save.SaveLink | neuralnetwork.c:424-426 | weight, saved weight and delta in this order |
| Save.SaveVectors | neuralnetwork.c:416-430 | the links of one direction of a layer, neuron by neuron |
| Save.SaveAllNeurons | neuralnetwork.c:391-405 | the neurons of all layers, in order, inside the buffer |
| Save.SaveAllLinks | neuralnetwork.c:409-461 | the forward links of all layers but the last, or the backward links of all but the first |
| Save.CountNeurons | neuralnetwork.c:339-342 | the sum of the widths modulo 2^32 |
| Save.CountPairs | neuralnetwork.c:347-350 | the sum of the products of adjacent widths modulo 2^32 |
| Save.TotalSize | neuralnetwork.c:329-356 | the size computed beforehand is the true one modulo 2^32 |
| Save.WritesStayInsideIff | neuralnetwork.c:356-468 | for every content: what is written stays inside a buffer of the computed size just if the true size is below 2^32 |
| Save.FourGigabytes | neuralnetwork.c:356-468 | two layers of 9460 neurons: 4296050930 octets for a buffer of 1083634 |
| Save.Seal | neuralnetwork.c:464-468 | the check value of all that follows goes to the front of the buffer |
| Save.SaveHeader | neuralnetwork.c:361-378 | number of layers, life, alpha, eta, gain and error |
| Save.SaveTable | neuralnetwork.c:381-386 | the layer table |
| Save.SaveBody | neuralnetwork.c:361-462 | the writes fill exactly the buffer from octet 4 to its end, each octet once, none past it |
| Save.SaveNN | neuralnetwork.c:312-485 | for every valid network: a write outside the buffer just if the true size reaches 2^32; otherwise the file has the true size and is the check value, the header and the body of whatever the network shows; from 2^31 octets on, where the size is a negative int for `eth_crc`, the check value is that of nothing |
| Layout.LowestFirst | neuralnetwork.c:364-384 | the octets of a stored number spell, from the lowest, the number cut to 16 or to 32 bits |
| Layout.HeaderFields | neuralnetwork.c:363-378 | in a saved file: number of layers at 4, life at 6, alpha at 10, eta at 18, gain at 26, error at 34 |
| Layout.WidthAt | neuralnetwork.c:380-388 | the width of layer k at 42 + 4 k |
| Layout.NeuronAt | neuralnetwork.c:391-405 | state, output and error of each neuron at its place behind the table, the neurons before it and those of the layers before it |
| Layout.LinkAt | neuralnetwork.c:409-461 | weight, saved weight and delta of each link of each direction at its place behind the neurons, the links of the gaps before it, and those of the neurons before it |
| Load.RestoreAndSeek | neuralnetwork.h:41-45 | eight bytes from the cursor, which moves past them |
| Load.RestoreVector | neuralnetwork.c:594-606 | reads the weights of one vector and leaves where its links lead |
| Load.RestoreAllNeurons | neuralnetwork.c:565-581 | every neuron of every layer shows what was read, and the reads are contiguous |
| Load.RestoreAllLinks | neuralnetwork.c:585-634 | so do all links of one direction; the other direction, the neurons and the wiring stay |
| Load.RestoreAll | neuralnetwork.c:564-635 | neurons, forward links and backward links are read in this order and the reads end exactly at the end of the file |
| Load.ReadTable | neuralnetwork.c:531-537 | the layer table |
| Load.Guess | neuralnetwork.c:542-550 | the guessed size is the true one modulo 2^32 |
| Load.CheckCrc | neuralnetwork.c:522-526 | the first four octets are the check value of the rest |
| Load.Check | neuralnetwork.c:521-554 | for every sequence of bytes: each error just in its case, a read outside the file being one, and otherwise the layer table of the file |
| Load.CheckAll | neuralnetwork.c:249-252 | the same with the test of create_nn; what is left has exactly the size its table announces |
| Load.LoadNN | neuralnetwork.c:488-641 | for every sequence of bytes: each error just in its case; otherwise a new, valid, threaded network with the widths of the table whose contents are exactly the bytes from 42 on |
| RoundTrip.ImagePasses | neuralnetwork.c:521-554 | whatever was saved passes both checks |
| RoundTrip.SaveThenLoad | neuralnetwork.c:312-641 | every network is saved whose true size is below 2^32, and loading what was saved gives a valid, threaded network with the same widths, neurons and weights |
| RoundTrip.LoadThenSave | neuralnetwork.c:312-641 | for every sequence of bytes: there is something to save just if the file is accepted, and saving it reproduces the length and every octet from 42 on |
| Save.SameShown | neuralnetwork.c:380-462 | a network shows one content only |
| RoundTrip.CorruptionIsRefused | neuralnetwork.c:522-526 | a saved file changed only within 32 consecutive bits behind the check value is refused just if fewer than 2^31 octets follow it |
| SizeCheck.ReadsEndIsImageSize | neuralnetwork.c:531-635 | the loops of load_nn move the cursor exactly as far as save_nn writes for the same table |
| SizeCheck.SizeCheckIff | neuralnetwork.c:542-554 | for every file with a layer table: the size check passes just if the file has less than 2^32 octets and the reads end a multiple of 2^32 behind its end; they end at its end just if the announced size is below 2^32 |
| SizeCheck.PassingFile | neuralnetwork.c:521-554 | for every table there is a file with a good check value that passes the size check, if the computed size leaves room for the table |
| SizeCheck.WrappedFile | neuralnetwork.c:521-554 | so there is one of 3145778 octets with two layers of 65536 neurons, whose reads end at 206161575986 |
| Fire.Send | neuralnetwork.c:681-687 | the output goes, weighted, to the state of every neuron behind |
| Fire.FireNeuro | neuralnetwork.c:678-703 | a neuron sends its old output before it computes the new one; those of the first layer keep state and output |
| Fire.FireLayer | neuralnetwork.c:678-704 | one round: new outputs and states of the layer, and what has added up in the next |
| Fire.FireAt | neuralnetwork.c:674-705 | the same within the network, where the links lead |
| Fire.FireStage | neuralnetwork.c:674-705 | one round keeps what the earlier rounds did, the wiring and the weights |
| Forward.FireForward | neuralnetwork.c:674-705 | all states and outputs after a call are the function Next of those before it |
| Settle.AccumIsDot | neuralnetwork.c:684 | what has been sent to a neuron is its state before plus the weighted sum |
| Forward.NextIsNext | neuralnetwork.c:674-705 | the function Next meets the relation that the runs below are made of |
| Settle.QuietAgain | neuralnetwork.c:674-705 | a call from any states leaves zero states behind the first layer, and the first layer as it was |
| Settle.OneCall | neuralnetwork.c:674-705 | every output behind the first layer is the activation of the state and the weighted outputs that the layer before had before the call |
| Settle.OneCallShowsIff | neuralnetwork.c:674-705 | with an activation that tells sums apart a call gives a neuron its value of the formula just if that sum is the sum of the formula |
| Settle.OneMore | neuralnetwork.c:674-705 | a call from zero states settles one more layer |
| Settle.RunExists | neuralnetwork.c:674-705 | there is a run of every length from every start |
| Settle.Settles | neuralnetwork.c:674-705 | in every run, t calls give the first t layers the values of the network as a formula, and one more if nothing was waiting at first |
| Settle.LastLayerSettles | neuralnetwork.c:674-710 | so the last layer has its value after as many calls as there are layers, or one less from zero states, and keeps it |
| Enough.ChainRun | neuralnetwork.c:674-705 | along a chain of neurons with weights one the outputs move on by one neuron a call |
| Enough.SufficeIff | neuralnetwork.c:674-705 | with a positive activation that tells sums apart, t calls settle the last layer of every network of n layers just if n = 1 or t >= n, or t >= n - 1 from zero states |
| Enough.ActivationTellsApart | neuralnetwork.c:700 | the activation tells sums apart if exp does and the gain is not 0 |
| Enough.CallsSufficeIff | neuralnetwork.c:700 | for the activation itself: the same, except that with gain 0 one call is enough |
| Calls.ReadyAtOnce | neuralnetwork.c:664-673 | every valid network shows some states, outputs and weights, so a call is always possible |
| Calls.FeedRows | neuralnetwork.c:778-839 | the calls for the rows of a file take the network through a run; the callback is given the last layer call by call, and the errors are those of the last row |
| Calls.RowsDoNotMatter | neuralnetwork.c:778-839 | from the row on whose number is that of the layers the answers are the formula applied to what the first layer showed before the loop, whatever the rows |
| Backward.LastErrors | neuralnetwork.c:714-720 | errors of the last layer, and half the summed squared differences as the error of the network |
| Backward.LastNeuro | neuralnetwork.c:715-719 | the error of one neuron of the last layer, and its part in that of the network |
| Backward.BackNeuro | neuralnetwork.c:728-733 | the error of a neuron from the weighted errors behind it |
| Backward.BackLayer | neuralnetwork.c:727-734 | the same for a layer, whose errors do not disturb those behind it |
| Backward.BackAt | neuralnetwork.c:723-735 | one round of the delta rule within the network |
| Network.FireBackward | neuralnetwork.c:711-735 | every error of every layer is the recursive delta rule |
| Network.SigmoidIsBetween | neuralnetwork.c:700 | the activation lies strictly between 0 and 1 |
| Network.SigmoidMirrors | neuralnetwork.c:700 | the activations of x and -x make up 1 |
| Logistic.SigmoidOdds | neuralnetwork.c:700 | the activation is exp(gain x) times what is missing to 1, if exp(y) and exp(-y) are inverse |
| Logistic.SigmoidGrows | neuralnetwork.c:700 | with a growing exp and a positive gain the activation strictly increases |
| Logistic.OutputHasOdds | neuralnetwork.c:674-703 | the output that a call leaves in a neuron behind the first layer has the odds exp(gain s), s being what waited in its state and what it was sent |
| Logistic.OutputsGrow | neuralnetwork.c:674-703 | of two neurons with one positive gain the one with more of that is left the greater output |
| Logistic.SlopeIsDerivative | neuralnetwork.c:717 | the factor of the errors is the derivative of the activation: for a change h with |gain h| at most 1/2 the activation changes by h times the factor, up to 4 (gain h)^2, if exp turns sums into products and lies above its tangent at 0 |
| Fire.WiringStays | neuralnetwork.c:674-735 | where no link is written the network stays wired and keeps its weights |
| Network.BackRound | neuralnetwork.c:723-735 | one round writes the errors of one layer by the delta rule and leaves those behind it |
| Network.FireNN | neuralnetwork.c:664-743 | a call as a whole: forward pass, the outputs copied out, and with an expected vector the delta rule and the network error, without one all errors as they were; the inputs are never read |
| Network.PassesAreTransposed | neuralnetwork.c:684-731 | what comes back times the outputs adds up to what is received times the errors: the backward pass applies the transpose of the forward pass |
| Network.ErrorIsZeroIffMatched | neuralnetwork.c:714-720 | the error of the network is not negative, and zero just if every output is the expected one |
| Gradient.ErrorDerives | neuralnetwork.c:714-718 | the gradient of the network error by the outputs of the last layer: the outputs less the expected ones, what is left being of the second order |
| Gradient.GradientIsDerivatives | neuralnetwork.c:717 | the places of a gradient are derivatives: for every eps there is a delta such that a change h of one place, up to delta, changes the number by h times it, up to eps h |
| Gradient.DerivativeIsUnique | neuralnetwork.c:717 | no other number is |
| Chain.ActivationDerives | neuralnetwork.c:717-733 | for an activation with the slope of the code a gradient by the outputs of a layer becomes one by its states, place by place times the slope |
| Backprop.LinksDerive | neuralnetwork.c:726-731 | a gradient by what the next layer is sent becomes one by the outputs of this layer: the sums that the inner loop takes back |
| Backprop.ErrorsAreGradient | neuralnetwork.c:711-735 | for every network, layer and expected answer: where the outputs of the layer are the activations of the states z, and those of the layers behind of what they are sent, the errors by the delta rule are minus the gradient of the network error by z |
| Backprop.ErrorByIsError | neuralnetwork.c:714-720 | at z that number is the error of the network that the call computes |
| Backprop.ErrorsAreDerivatives | neuralnetwork.c:711-735 | so the error that a call with an expected answer leaves in each neuron of such a layer is minus the derivative of the network error by its state |
| Backprop.LastFeedsOn | neuralnetwork.c:674-705 | after any call the last layer is such a layer, z being the states with which its neurons fired |
| Backprop.RunFeedsOn | neuralnetwork.c:674-705 | after as many calls as there are layers, or one fewer from zero states, so is every layer behind the first, z being what it is sent |
| Ring.Arena.constructor | wmdata.c:37-43 | all buckets are zero, as lines 40 and 41 assign nothing |
| Ring.Arena.Flag | wmdata.c:54-55 | only the id of the slot of the new message changes |
| Ring.Arena.Publish | wmdata.c:57-67 | the slot holds the message with its check value: all of it up to 12 octets, else its first 12, octet for octet |
| Ring.Arena.WatermarkPush | wmdata.c:47-68 | undisturbed, a push is its second half, and the slot delivers the message the same way |
| Ring.Test | wmdata.c:85-86 | the test of the reader: id equals wrote, is not below the message asked for, and the check value fits |
| Ring.Arena.Poll | wmdata.c:82-90 | one turn of the loop: the bucket just if it passes the test |
| Ring.WatermarkPop | wmdata.c:74-92 | within a run that goes on around it, the loop ends at the first turn that finds its message published and its slot not flagged, and gives what was pushed under the id it returns less one, octet for octet up to the twelfth |
| Ring.RunIsWatched | wmdata.c:74-92 | in every run, whatever the writer and the other readers do between its turns, the loop of a reader sees the arena of the run and stays as its last turn left it |
| Ring.OneMorePush | wmdata.c:55-67 | a push changes what its own slot holds and no other |
| Ring.ServedIff | wmdata.c:82-87 | with n messages published a reader of m is served just if m < n and the slot is not flagged; it gets message m + 12 floor((n - 1 - m) / 12), which is m just if it is at most 12 behind |
| Ring.BlankFails | wmdata.c:37-87 | a bucket never written fails, for id 0 because the check value of no bytes is not 0 |
| Ring.StepKeepsSlots | wmdata.c:55-67 | every step of writer or readers keeps the closed form of the arena |
| Ring.PollKeepsReader | wmdata.c:80-91 | a poll keeps what a reader holds: earlier pushes, in ascending order |
| Ring.EveryRunIsOk | wmdata.c:47-92 | for every interleaving and readers that start with any messages, whatever a reader was given is exactly one finished push under its own id with its first 12 bytes, and the ids of a reader strictly increase from the first it asked for |
| Ring.EveryRunDelivers | wmdata.c:47-92 | in every run, for every bucket that a reader was given: its length is that of the message pushed under its id, or 12 if that is less, and its octets are those of the message |
| Ring.PublishedDelivers | wmdata.c:57-62 | that holds of every bucket that is published |
| Ring.NothingIsSkipped | wmdata.c:128-151 | a reader never more than 12 behind is given the messages from the first it asked for on without a gap |
| Torn.MixedPassesIff | wmdata.c:57-85 | the head of one bucket with the rest of another always fails if split behind the id, always passes if split behind wrote, and further behind passes just if the message taken has the check value of the first |
| Torn.LateSplitIsSeen | wmdata.c:57-85 | with at most four octets of the message missing it passes just if the message taken is the one pushed |
| Machine.LongFits | statistic.c:93 | a result is cut to a long, and kept just if it is one |
| Machine.LongAbsorbs | statistic.c:120-125 | cutting early or late is the same |
| Expectation.Table.E | statistic.c:90-132 | E on the two arrays, whose sums are cut to 64 bits: the fatal cases, the reset, the overflow, the new entry and mean; all other entries stay |
| Expectation.WordSplits | statistic.c:80-109 | the stored word splits back into tag and counter |
| Expectation.QuotientTruncates | statistic.c:129 | the division truncates toward zero |
| Expectation.AddedExtends | statistic.c:106-131 | on its own entry E never fails, extends the history and gives the truncated quotient of its sum, cut to 64 bits; -1 just when the 16384th sample would come; that is the mean or mean square just if the powers so far and the next one add up to a long |
| Expectation.MeanIsShownIff | statistic.c:93-129 | the mean or mean square of a history is shown just if the sum of its powers is a long |
| Expectation.OverflowShows | statistic.c:93-129 | the samples 4294967295 and 0 show the mean square -4294967295 |
| Expectation.CollisionIsSeenIff | statistic.c:106-108 | a foreign address is refused just if the sum, cut to 64 bits, is not 0 |
| Expectation.MissedCollision | statistic.c:106-129 | after one sample 0 a foreign sample 10 gives the mean 5 |
| Expectation.IndexAndKeyDetermine | statistic.c:80-88 | index and tag together are the address of an aligned variable |
| Expectation.SumFits | statistic.c:93-125 | samples below 2^24 keep the sum of their powers a long |
| Expectation.StepRefines | statistic.c:90-132 | one operation keeps every accumulator in step with its history |
| Expectation.EveryRunIsRefined | statistic.c:90-132 | over any mix of samples and resets of accumulators with indices of their own nothing is fatal, and every entry and variable shows, modulo 2^64, exactly the samples since the last reset or lost history |
| Expectation.MeansAreShownIff | statistic.c:90-132 | over any such run a variable holds the mean or mean square of its samples just if the sum of their powers is a long |
| Statistic.NextBit | macro.h:123-127 | one turn decides one more bit of the root |
| Statistic.Isqrt | macro.h:118-129 | the exact floor square root below 2^32; 65535 for a negative argument, which is compared as unsigned |
| Statistic.CauchySchwarz | receiver.c:117-118 | the square of the sum is at most the count times the sum of squares |
| Statistic.TruncationKeepsOrder | statistic.c:129 | truncated quotients keep that order |
| Statistic.VarianceIsPositive | aping.c:152 | mean square less squared mean, both truncated, is not negative |
| Statistic.MeanIsBetween | receiver.c:115-117 | the mean lies between the bounds of the samples |
| Statistic.DeviationIsBelow | aping.c:167-168 | the deviation lies below every bound of the samples |
| Rounding.TurnsAreMultiples | statistic.c:166-169 | after n turns the variable is (n + 1) periods, cut to an int |
| Rounding.OddReaches | statistic.c:168-169 | the multiples of an odd number take every value modulo a power of two |
| Rounding.LoopEndsIff | statistic.c:166-169 | some turn takes the variable past the argument just if the argument is below the greatest int that the power of two in the period divides |
| Rounding.LongNeverEnds | statistic.c:166-169 | none does for an argument of 2^31 - 1 or more, whatever the period |
| Rounding.MagicRound | statistic.c:163-176 | the first turn past the argument is found and the comparison taken there, in longs |
| Rounding.NearestIsNearest | statistic.c:171-174 | the multiple of the comparison: no other is nearer, or as near and lower |
| Rounding.RoundedIsMultipleIff | statistic.c:163-176 | where the loop ends, for a positive period and an argument that is not negative, the result is a multiple of the period, and then the nearest, just if the first multiple above the argument is an int |
| Rounding.AtOnce | statistic.c:163-176 | a loop over before it begins gives 0 for a positive period and the period itself for another |
| Rounding.UsualPeriod | global.h:73 | the two bounds for the period 1000 |
| Statistic.SquaresFit | statistic.c:120-125 | if the sum of the squares is a long, so is the sum, and every sample is below 2^32 |
| Statistic.MeanIsAtMost | statistic.c:129 | the truncated mean of samples of either sign is not above a bound that is not negative |
| Agents.OnePacket | receiver.c:151-202 | what one packet does to the failure counter, to slow start and to the last id |
| Agents.FourthInARowFlips | receiver.c:154-174 | in every run the counter is the number of suspicious packets in a row, 0 to 3 between packets, and the byte order is reverted just at the fourth |
| Agents.FivePacketsAFlip | receiver.c:154-196 | packets >= 5 flips + failures + (0 in slow start, else 1) in every run with resets from the keyboard |
| Agents.ReadingNeverChanges | receiver.c:70-84 | in every run every ip_id is read byte-swapped, whatever endian_bug is |
| Agents.WrongSteps | receiver.c:182-196 | read in the wrong order, ids that count up differ by 256 throughout, the carries included, but for the step from 65535 to 0, where the difference is 0 |
| Agents.RevertingDoesNotHelp | receiver.c:151-202 | n packets of a host that counts the other byte up, round and round, cause exactly 13107 floor(n / 65536) + floor((n mod 65536) / 5) reverts: every fifth packet, the count starting afresh with each round |
| Agents.SmallStepsAreSuspicious | receiver.c:154 | ids that grow by less than a byte's worth, read in the wrong order, are suspicious |
| Agents.DifferenceIsModularIff | receiver.c:189-196 | the difference is the distance modulo 65536 just if the id has not wrapped, and one less if it has |
| Agents.RandomIsLastJump | receiver.c:198-199 | in every run rand_ipid is the last difference above 32768 since the last reset or revert, and 0 just if there is none |
| Agents.ShownIff | receiver.c:154-177 | in every run a packet is shown just if it is not the second, third or fourth suspicious one in a row |
| Agents.SlowStartHasNoDifference | receiver.c:189-192 | in slow start the difference is 0 and rand_ipid stays, and the packet ends it |
| Receiver.Sample | statistic.c:90-132 | one sample for one accumulator in use |
| Receiver.Statistics.constructor | global.h:91-113 | the initial values satisfy the invariant |
| Receiver.Statistics.MeansTrueIff | receiver.c:117-118 | mean and mean square are those of the round trips just if the squares add up to a long |
| Receiver.Statistics.ShortRoundsAreTrue | receiver.c:117-118 | which they do for round trips below 2^24 ms |
| Receiver.Statistics.TakeRtt | receiver.c:117-118 | the two accumulators of a round trip stay in lockstep, and are true just if the squares so far and the next one add up to a long |
| Receiver.Statistics.TakeRound | receiver.c:115-118 | minimum, maximum, mean and mean square take in the round trip, and every sample stays between minimum and maximum, as far as a maximum can be a long |
| Clock.DifferenceIsExactIff | macro.h:100-101 | the two parts of a difference make up the span between the times just if it fits in |
| Clock.AdjustedIsExactIff | macro.h:100-102 | after the adjustment they do just if, besides, the microseconds do not go down, or go down by whole milliseconds; otherwise a span that fits in is two milliseconds too great |
| Clock.Watch.constructor | global.h:83-89 | the initial times |
| Clock.Watch.Wait | receiver.c:385-395 | the waiting time, from the time in an echo or the last one sent, and the time of this packet |
| Clock.Watch.Read | receiver.c:94-119 | round trip, time stamp and jitter for the three kinds of packets |
| Clock.Watch.Keep | receiver.c:411-412 | this packet becomes the last one |
| Clock.PendingIsZeroIff | statistic.c:254-278 | the pending time is 0 just as said of the times before the call, never without a time stamp for a period of 2 ms or more; it is not negative with a time stamp or with a period that is not |
| Clock.ShortPeriodIsZeroIff | statistic.c:270-273 | the condition spelt out for shorter and negative periods |
| Clock.OldEchoHangs | receiver.c:385-412 | two echo replies of which the first carries a time 2^31 ms back or more leave a time to round for which the loop never ends |
| Clock.NegativePeriodIsNegative | statistic.c:270-273 | with the period -1000 the pending time can be -500 |
| Clock.NextIsZero | receiver.c:104 | behind a packet with a time stamp the next one has no pending time, unless it brings a later stamp or a stamp of 0 |
| Pending.RoundTripIsTimeSince | receiver.c:96-119 | without a time stamp the round trip is the time since the echo or the last sending, where that is not negative, fits in and needs no borrowing |
| Pending.StampedSinceMidnight | receiver.c:101-105 | the round trip of a timestamp reply is the milliseconds since midnight less the time it was sent with, without its sign |
| Pending.StampsOfOneDay | receiver.c:101-105 | two of one day have round trips that differ by the time between them less the difference of the times they were sent with |
| Pending.JitterIsGrowth | receiver.c:119 | the jitter is how much longer this round trip was than the last one |
| Pending.SendingsApart | receiver.c:385-412 | for two echo replies in a row the last round trip and the waiting time make up the time between the two sendings, to less than two milliseconds, and exactly for whole milliseconds |
| Pending.PeriodsArePending | statistic.c:268-273 | for a period of 2 ms or more and no time stamp: if that sum lies nearest to k periods, the pending time is k periods and half the jitter, but at least half a period; without jitter k periods, for k >= 1 |
| Pending.NearestIsPending | statistic.c:268-273 | the same in terms of the nearest multiple |
| Pending.NegativeSumIsPending | statistic.c:268-273 | for a negative sum the pending time is half the period or half the jitter, whichever is more |
| Pending.EchoesArePending | statistic.c:268-273 | so for two pings of which the second was sent a whole number of periods after the first the pending time is the time between the sendings and half of what the second reply took longer, but at least half a period |
| Pending.StampsAddUp | statistic.c:254-262 | over every run of later and later time stamps the pending times add up to the last stamp less the one before the run |
| Receiver.Statistics.Pending | statistic.c:254-275 | the pending time, by time stamps or by the rounded period, wherever `magic_round` ends |
| Receiver.BurstIsSmall | statistic.c:277-278 | a burst is below 2^36, so their sums are longs |
| Receiver.BurstIsRate | statistic.c:277-278 | the burst is the rate, in bits per unit of pending time, of the packets between two ids and this one, truncated toward zero |
| Receiver.Statistics.CountBurst | statistic.c:277-282 | the burst, its maximum and its mean |
| Receiver.Statistics.MeanOfBursts | statistic.c:280-282 | in every reachable state the mean burst is the mean of the bursts and not above their maximum, and not below 0 if the period is not |
| Receiver.Statistics.Report | aping.c:146-169 | in every reachable state: if the squares add up to a long, the variance is that of the round trips and not negative, the deviation is its root and below the maximum, and the mean lies between minimum and maximum; the root of a negative variance is 65535 |
| Receiver.TwoStampsOverflow | receiver.c:101-118 | two timestamp replies at midnight after which the variance is -2^62 and the deviation 65535 |
| Receiver.Ids.AgentDynId | receiver.c:184-202 | the difference of the ids, slow start and the sign of randomness |
| Receiver.Ids.ResetIpid | receiver.c:125-131 | the ids start afresh |
| Receiver.ResetStat | receiver.c:134-144 | ids and bursts start afresh, the accumulator with them |
| Receiver.AgentIpid | receiver.c:151-177 | the failure counter and the revert, and which packets are not shown |
| Receiver.BandwidthPredictor | statistic.c:242-287 | which packets count, that the division by zero happens just where the times before the call say so, and the burst everywhere else |
| Receiver.AgentTimestamp | receiver.c:91-122 | times, minimum, maximum, mean and mean square for the three kinds of packets |
| Receiver.WatchIds | receiver.c:399-401 | the two agents of the ids on one packet |
| Receiver.Receive | receiver.c:385-412 | one packet: keeps the invariant, is the packet step of the agents, and crashes just if the packet brings a burst and the times it is shown with leave no pending time; the bursts after it are a function of the state before, and the round trip is taken in, with true means just if the squares still add up to a long |
| Receiver.SecondReplyCrashes | receiver.c:385-412 | of a timestamp reply and a packet that brings a burst, without a later time stamp, one crashes |
| Receiver.Key | keystroke.c:95-118 | the keys that reset: keep the invariant and are the key steps of the agents |
| Checksum.NormAdds | chksum.c:53-66 | adding a word with end-around carry commutes with reducing modulo 65535 |
| Checksum.DeferredCarries | chksum.c:53-66 | adding the carries at the end is adding them at every step |
| Checksum.TwoFolds | chksum.c:65-66 | two folds are enough for every sum a C int holds |
| Checksum.WordsSpell | chksum.c:53-63 | the words of a buffer, an odd last byte padded with a zero behind it |
| Checksum.SumWords | chksum.c:53-63 | the plain sum of the words, without overflow up to 65536 bytes |
| Checksum.Chksum | chksum.c:39-69 | the complement of the words added with end-around carry at each step |
| OnesComplement.StoreSetsWord | sender.c:131-132 | a store at an even offset sets one word |
| OnesComplement.ChecksIffStamped | sender.c:131-132 | with v in the field the checksum is 0 just if v is the checksum taken with the field zero, or 65535 for 0 |
| OnesComplement.OneWordErrorIsSeen | sender.c:131-132 | any other single word changed in a header that passes makes it fail, but for the two zeros |
| OnesComplement.Stamp | sender.c:131-132 | zero, checksum, store: only the field changes, and a second checksum is 0 |
| OnesComplement.SwapEndAround | chksum.c:53-66 | a carry stays a carry when the bytes change places |
| OnesComplement.SwapSum | chksum.c:53-66 | swapping the bytes of every word swaps those of the sum |
| OnesComplement.StoredBytesAreTheSame | chksum.c:53-67 | the two bytes a host stores do not depend on its byte order |
| OnesComplement.SumIgnoresOrder | chksum.c:53-56 | the order of the words does not matter |
| OnesComplement.ChecksumConcat | chksum.c:53-67 | the checksum of a concatenation at an even boundary from those of the parts |
| Lookup.HitIsMostRecent | ns-cache.c:230-268 | a hit gives the value of the most recent insertion for exactly that key |
| Lookup.HitIff | ns-cache.c:230-302 | the cache answers just if an insertion of the key is neither expired nor followed by another key for its slot |
| Lookup.TablesAgree | ns-cache.c:323-428 | in every run with a stable resolver the tables hold only what it says |
| Lookup.CacheIsTransparent | ns-cache.c:323-428 | so a cached lookup always returns what the resolver would |
| Lookup.HitIsFresh | ns-cache.c:240-262 | a hit is of today or of yesterday |
| Lookup.AnswersForTwoDays | ns-cache.c:229-268 | an insertion whose slot was not taken since answers just up to the day after it was made, with its value |
| Lookup.LastOfSlot | ns-cache.c:270-302 | what a slot holds is the last insertion with its hash modulo 4096 |
| Lookup.SurvivorIsLatest | ns-cache.c:250-268 | the insertion that survives is the one that answers |
| Lookup.NameIsGivenIff | ns-cache.c:394-424 | after every run of lookups: with allow_reverse off the numeric form is given; with it on the name, just if no insertion of the key survives that was made with it off, or both are the same |
| Lookup.SwitchIsTransparent | aping.c:305 | in every run in which allow_reverse is never turned on again, every answer is what the resolver says for the switch at that moment |
| Lookup.TurningOnShows | ns-cache.c:394-424 | turned on within a day of a lookup with it off, the numeric form is still given, whatever came before |
| NsCache.RingTurns | ns-cache.c:310-312 | one more call keeps the ring equal to the last 256 strings returned |
| NsCache.Cache.constructor | ns-cache.c:104-110 | the zeroed tables satisfy the invariant |
| NsCache.Cache.CacheHostByName | ns-cache.c:229-248 | the answer of the cache for a name, and none from an empty slot |
| NsCache.Cache.CacheHostByAddr | ns-cache.c:250-268 | the answer of the cache for an address, and none from an empty slot |
| NsCache.Cache.InsertHostByName | ns-cache.c:270-285 | the old string is freed, the new one takes its place, and the insertion is the last of its slot |
| NsCache.Cache.InsertHostByAddr | ns-cache.c:287-302 | the same for addresses |
| NsCache.Cache.FillSlot | ns-cache.c:310-312 | one slot of the ring: the old string is freed, the new one takes its place, all others stay |
| NsCache.Cache.TurnRing | ns-cache.c:310-312 | the string of 256 calls ago makes room for the new one |
| NsCache.Cache.FillRing | ns-cache.c:310-312 | the string of 256 calls ago is freed and the new one returned; no string is freed twice and none is lost |
| NsCache.Cache.SafeBuffer | ns-cache.c:304-316 | the same, and the mutex is released |
| NsCache.Cache.GetHostByNameCache | ns-cache.c:323-379 | result and table are those of a cached lookup; the name server is asked just if the cache has no answer and the name is not a dotted address; the mutex is taken once and released once on every path |
| NsCache.Cache.GetHostByAddrCache | ns-cache.c:381-428 | the same for addresses, where the name server is asked just if the cache has no answer and names are allowed; address 0 is never looked up |
| NsCache.DottedIsAnswered | ns-cache.c:346-379 | over every run of lookups a dotted address is answered by itself, anything else by the name server |
| NsCache.KnownNameIsGiven | ns-cache.c:399-424 | and an address by its name where that is known, by the dotted form only where it is not |
| NsCache.Cache.SafeInetNtoa | ns-cache.c:430-437 | the dotted form in a new string; the mutex is taken once and released once |
| NsCache.Cache.LastCallsAreLive | ns-cache.c:304-316 | a returned string is live until the 256th later call and not after it; of the ring strings exactly the last 256 are live |

## Left out

- Sockets, packet capture, signals, terminal, option parsing, plugins, dissectors and every message printed.
- Graph: outside creation and release the loops over neurons and layers go by position, which `NeuronsByList` and
  `LayersByList` show to be following the lists.
- Graph.CreateNN: where the program exits or reads through a null pointer the model returns an error. Memory is never
  exhausted.
- Save.SaveNN: where the program would write outside its buffer the model returns None, as C does not say what
  happens; writing the file and releasing the buffer are not modelled.
- Load.LoadNN: life, alpha, eta, gain and error are not restored, as the program skips them; the release of the layer
  table, which lines 562 and 638 both contain, is not modelled. Where the program would read outside the file the
  result is the error `ReadsOutside`, as C does not say what happens.
- Image: numbers are stored in little-endian host order.
- Files: opening, reading and writing them; a file is its sequence of bytes.
- Fire, Forward, Backward, Network, Backprop: rounding of doubles, and overflow of `exp`. Weights are never adjusted
  by the program. What the errors of the first layer mean is said only where its outputs are activations too; the
  program never activates them.
- `status_nn` and `randomize_nn`. Of `feed_from_file` only the calls for its rows are modelled, not their parsing.
- Ring: ids are unbounded, so the end of the range of an int is not modelled; a bucket is copied in one step in the
  runs, and `Torn` looks at single mixtures of two copies. The wait between two turns and the removal of the segment
  are left out.
- Machine: a long has 64 bits and an int 32, and results out of range wrap around, as gcc compiles them; for sums and
  differences of longs C does not say what happens.
- Clock: the round trip of a timestamp reply counts from midnight, so it is far off across it, as in the program.
- Receiver.Receive: requires that `magic_round` ends where a packet brings a burst without a time stamp, as nothing
  happens after a loop that does not end; the lines printed, and `link_type` with its table, are left out.
- Packet fields and the results of the filters are inputs.
- NsCache: the hash functions are parameters and may be any functions; `__fnv` itself is not modelled. Timeouts by
  alarm, lookups across the end of a year, and hosts where a long has 32 bits (there the address 255.255.255.255 is
  never cached) are left out. Callers do not write into the strings they are given.
- Threads: each public function of the name cache is one step, which the mutex that it holds from beginning to end
  justifies.
- `TTL_PREDICTOR`, `strlcpy`, `strlcat`, the tables of names and hardware addresses.
