# Verified model of the identity, account and queue code

Four clusters of the server's logic, modelled in Dafny and proved.

**The deterministic codec and what is built on it.** The CBOR subset of section
4.2.1 of RFC 8949 (`bytes`, `cbor`, `canonical`), what that section asks, said apart from
the code (`encoding`, `unicode`), bytes cut short or run on (`prefixes`), the encoder and the
reader as loops over a buffer (`codec`), maps whose entries stand in any order (`maps`),
signed envelopes (`signed`), line endings (`text`), the three signed messages and
the forms they travel in (`message`, `objects`, `fields`, `forms`, `contents`),
padding (`padding`), exactly when the forms come back (`reassembly`), chat lines
and articles signed and read (`signing`), exactly what is accepted and what that
proves (`accepted`), registrar list pages (`registrar`), and fingerprints in
Crockford's base 32 (`keys`). A decoder that decodes, encodes again and scans for
duplicate keys is shown to accept exactly the encodings of deep-sorted,
duplicate-free values nested no deeper than the limit.

**Accounts, roles and administration.** What an account's files resolve to under
masks (`account`, `account_file`), the writer of its access table as a lens over
that (`access_table`), the rule for who may change whom and what it keeps over any
run (`admin`), and the fingerprint index over a directory that anyone may write
(`index`, `links`).

**The queue budget**, with each call at once (`budget`) and taken apart into its
atomic instructions on wrapping counters, in any interleaving (`budget_steps`).

**What a client trusts.** Server key handovers (`handover`, `handover_runs`,
`handover_batches`), chains of identity rotations (`friendship`), and sealed
messages with their replay memory and what opening one proves (`sealed`,
`sealed_boxes`, `opened`).

Code that changes state is a class or a loop proved against a function; what the
source promises is then proved of that function. SHA-256, signature checks, HPKE's
opening and certificate parsing are functions the theorems hold for whatever they
are; nothing supposes SHA-256 injective except where the hashes in play are said
to tell handovers apart.

Where the code and what is said of it differ, the code is modelled:

- A text whose line endings were rewritten, some one way and some another, does not
  always read back: a line feed made a CR before one left a line feed becomes one.
  `LineEndings.MixedEndingsJoin` gives the input, and `Reassembly.RewrittenFormsIff`
  the exact condition for either form of a message.
- A fingerprint in an account file that parses but is not spelled as it is shown
  (an `o` for a `0`) is not found by the index, which compares texts, so a second
  account can link the identity: `Links.OtherSpellingLinksTwice`.
  `Links.ActKeepsIff` and `Links.RunKeepsIff` give the exact condition: every text
  as shown but for case, which all the server's own writes are.
- Opening a sealed message reads the clock before it records the acceptance, so
  two sessions on one memory can show a message twice if one stalls between the
  two past both time allowances: `SealedMessages.StalledShowsTwice`. In time,
  `SealedMessages.AtMostOnce` holds in every interleaving, and
  `SealedMessages.RefusedAgainIff` says being in time is exactly what it takes.
- The peak bound of the budget needs a second share, or a share whose own bound is
  within the peak: `Budget.AloneWithinPeakIff` says just those keep to it alone.

## Model

| member | source | states |
|---|---|---|
| Codec.Out.PutHead | crates/hl-identity/src/cbor.rs:69-86 | the head pushed is the one specified, which `Deterministic.HeadShortest` says is the shortest of the number |
| Codec.Out.EncodeInto | crates/hl-identity/src/cbor.rs:88-125 | the loops and the sort in place append exactly the encoding, whose map entries `Deterministic.WrittenInOrder` puts in order |
| Codec.EncodeBytes | crates/hl-identity/src/cbor.rs:128-132 | the whole encoding |
| Codec.Reader.ReadHead | crates/hl-identity/src/cbor.rs:153-166 | the reader at its position reads what the specification reads of the bytes left, and stops where it stops |
| Codec.Reader.ReadItem | crates/hl-identity/src/cbor.rs:168-225 | the same for an item, with the early refusals of counts and depths |
| Codec.Reader.ReadEntries | crates/hl-identity/src/cbor.rs:209-221 | the same for the loop over a map's entries |
| Codec.Decode | crates/hl-identity/src/cbor.rs:230-243 | decoding, encoding again and the scan, as one outcome |
| Canonical.ReadEncode | crates/hl-identity/src/cbor.rs:168-225 | reading an encoding followed by any bytes takes exactly the encoding and gives the deep-sorted value, or refuses it for its depth alone |
| Canonical.PrefixFree | crates/hl-identity/src/cbor.rs:88-125 | no encoding is a proper prefix of another, and equal encodings come of values equal once sorted, however deep they nest |
| Canonical.EncodeInjective | crates/hl-identity/src/cbor.rs:88-125 | sorted values encode alike exactly when they are equal, however deep they nest |
| Canonical.EncodeDeepSort | crates/hl-identity/src/cbor.rs:105-122 | sorting a value's maps through and through does not change its bytes |
| Canonical.ScanIsEnough | crates/hl-identity/src/cbor.rs:257-268 | for a sorted value, the scan of neighbours finds no duplicate exactly when keys ascend strictly at every depth, however deep it nests |
| Canonical.DecodeEncode | crates/hl-identity/src/cbor.rs:230-243 | what becomes of every value's encoding: too deep, refused for a duplicate key, or the sorted value |
| Canonical.DecodeIff | crates/hl-identity/src/cbor.rs:230-243 | bytes decode to a value exactly when the value is canonical and the bytes are its encoding |
| Deterministic.BeforeIff | crates/hl-identity/src/cbor.rs:116 | keys are compared as byte strings: one comes first that the other goes on from, or that has the smaller byte where they first differ |
| Deterministic.WrittenInOrder | crates/hl-identity/src/cbor.rs:105-122 | a map is written with its entries in that order of their encoded keys |
| Deterministic.AcceptedIff | crates/hl-identity/src/cbor.rs:230-268 | and is accepted, anywhere in a value, exactly in that order and with each key once |
| Deterministic.HeadShortest | crates/hl-identity/src/cbor.rs:69-86 | of all the heads there are of a number, the one written is the one shortest |
| Deterministic.HeadReadIff | crates/hl-identity/src/cbor.rs:153-166 | a head is read exactly where one stands, shortest or not, its argument big-endian |
| Deterministic.FromBeWeighs | crates/hl-identity/src/cbor.rs:80-85 | the first byte of an argument weighs the most |
| Deterministic.Examples | crates/hl-identity/src/cbor.rs:314-334 | the bytes of each kind of value, and of a map whose shorter key comes first |
| Prefixes.CutShort | crates/hl-identity/src/cbor.rs:135-225 | a canonical encoding cut anywhere is refused as truncated, early refusals of counts included |
| Prefixes.RunOn | crates/hl-identity/src/cbor.rs:230-236 | and one that anything follows as trailing |
| Unicode.ValidIff | crates/hl-identity/src/cbor.rs:191-197 | what a text may hold is exactly what Unicode scalar values are written as |
| Maps.OpenCanonical | crates/hl-identity/src/cbor.rs:301-308 | a map built in any order reads back as its entries in canonical order |
| Maps.SameEntriesEncode | crates/hl-identity/src/cbor.rs:88-125 | maps of the same entries encode alike, whatever their order |
| Maps.DropPushed | crates/hl-identity/src/cbor.rs:285-296 | taking out what was pushed leaves the entries there were |
| Signed.SealOpens | crates/hl-identity/src/signed.rs:29-60 | opening any map sealed, whatever the order inside, gives its very bytes as the signed ones and the signature, or refuses its depth, a key twice, a signature it had, or its version |
| Signed.EnvelopeWhole | crates/hl-identity/src/signed.rs:41-60 | every accepted object is its signed map with its signature put back |
| Signed.EnvelopeDetermined | crates/hl-identity/src/signed.rs:41-60 | an accepted object's bytes are fixed by its signed bytes and its signature |
| Signed.SealAckedOpens | crates/hl-identity/src/signed.rs:80-124 | the same of any map sealed with two signatures |
| Signed.DropCommutes | crates/hl-identity/src/signed.rs:88-96 | the two signatures may be taken out in either order |
| Signed.AckedWhole | crates/hl-identity/src/signed.rs:80-97 | every accepted doubly signed object is its body with both signatures put back |
| Signed.AckedDetermined | crates/hl-identity/src/signed.rs:80-97 | its bytes are fixed by its signed bytes and both signatures |
| LineEndings.RewrittenIff | crates/hl-identity/src/message.rs:39-41 | a text rewritten line ending by line ending canonicalizes back exactly when no CR came to stand before an LF |
| LineEndings.MixedEndingsJoin | crates/hl-identity/src/message.rs:39-41 | the input on which a mix of endings does not come back |
| LineEndings.CanonicalUtf8 | crates/hl-identity/src/message.rs:39-41 | canonicalizing keeps a text UTF-8 |
| LineEndings.CanonicalFixed | crates/hl-identity/src/message.rs:39-47 | a text with no CR is left as it is |
| Fields.PrivateReads | crates/hl-identity/src/message.rs:187-221 | a private message's own map reads as the message in canonical form, or fails the check named |
| Fields.ChatReads | crates/hl-identity/src/message.rs:253-284 | the same for a chat line |
| Fields.NewsReads | crates/hl-identity/src/message.rs:316-386 | the same for an article, its parent and mime included |
| AcceptedMessages.PrivateIff | crates/hl-identity/src/message.rs:200-221 | exactly which maps are private messages, of which fields, in either form's limits |
| AcceptedMessages.ChatIff | crates/hl-identity/src/message.rs:269-284 | and chat lines, their scope with no other keys |
| AcceptedMessages.NewsIff | crates/hl-identity/src/message.rs:341-386 | and articles, a parent with both its id and its signer or neither |
| AcceptedMessages.WindowIff | crates/hl-identity/src/signed.rs:248-259 | a time is in a window exactly when it is from the issue to the expiry give or take the skew, in unbounded numbers |
| AcceptedMessages.CertIff | crates/hl-identity/src/message.rs:684-693 | a certificate is good exactly when it is small enough, reads, may message, and covers both times |
| AcceptedMessages.VerifyIff | crates/hl-identity/src/message.rs:640-649 | a check answers a message exactly when its map is one, its certificate is good and the device it names signed the rest of the map |
| AcceptedMessages.ForgedRefused | crates/hl-identity/src/message.rs:644 | a map that is a message but for its signature is refused with that |
| AcceptedMessages.WholeIff | crates/hl-identity/src/message.rs:474-479 | so for a whole message, within its limit |
| AcceptedMessages.DetachedFormIff | crates/hl-identity/src/message.rs:482-487 | for a detached form, its texts put beside the rest |
| AcceptedMessages.LinkFormIff | crates/hl-identity/src/message.rs:493-508 | and for a link form, with the certificate whose hash it names |
| AcceptedMessages.DetachedWrittenIff | crates/hl-identity/src/message.rs:594-602 | a detached form is written exactly of what passes its limits, and is no longer than it may be |
| AcceptedMessages.LinkWrittenIff | crates/hl-identity/src/message.rs:604-616 | and a link form exactly of what has a detached one, likewise |
| Forms.FromValueEither | crates/hl-identity/src/message.rs:200-221 | a detached form's limits only refuse more than the whole form's |
| Forms.DetachedAgrees | crates/hl-identity/src/message.rs:482-487 | the detached form of a message that passed its checks, with texts that match, reads back as a map of the same bytes, unknown keys and all |
| Forms.LinkAgrees | crates/hl-identity/src/message.rs:493-508 | the same for the link form, given the certificate it names by its hash |
| Contents.ParsedWholeGenuine | crates/hl-identity/src/message.rs:474-479 | what is parsed whole meets the form theorems' premise, and encodes to the bytes it came from |
| Contents.ParsedDetachedGenuine | crates/hl-identity/src/message.rs:482-487 | so does what is reassembled from a detached form |
| Contents.RewrittenMatchIff | crates/hl-identity/src/message.rs:624-638 | rewritten texts are a message's own exactly when no CR came to stand before an LF in any of them |
| Reassembly.DetachedIff | crates/hl-identity/src/message.rs:482-487 | a detached form whose certificate is still good comes back byte for byte exactly when the texts beside it are, in canonical form, those signed |
| Reassembly.LinkIff | crates/hl-identity/src/message.rs:493-508 | so does a link form, given the certificate it names |
| Reassembly.RewrittenFormsIff | crates/hl-identity/src/message.rs:624-638 | with line endings rewritten, either form comes back byte for byte exactly when no CR came to stand before an LF in any text |
| Reassembly.ParsedLinkGenuine | crates/hl-identity/src/message.rs:493-508 | what is reassembled from a link form meets the form theorems' premise too |
| Contents.ContentSame | crates/hl-identity/src/message.rs:581-590 | the bytes compared do not depend on the order a map was put together in |
| AcceptedMessages.ContentIff | crates/hl-identity/src/message.rs:581-590 | two messages have one content exactly when they differ in nothing but `sent`, `cert` and `sig` |
| AcceptedMessages.ContentFixes | crates/hl-identity/src/message.rs:581-590 | so one content is one id, one place and one text |
| Contents.LinkContentAgrees | crates/hl-identity/src/message.rs:513-523 | the bytes hashed of a link form are those hashed of the whole message |
| Padding.Pad | crates/hl-identity/src/message.rs:655-662 | pads with zeros to the smallest size that holds the map, and refuses exactly what no size holds |
| Padding.UnpadPad | crates/hl-identity/src/message.rs:655-675 | unpadding what was padded gives back every canonical map |
| Padding.PrivateFits | crates/hl-identity/src/message.rs:34-35 | every private message whose fields pass fits the largest size, signed or unsigned |
| Padding.PrivateSigned | crates/hl-identity/src/message.rs:76-86 | a private message signed parses whole as itself with canonical texts, to the same bytes |
| Signing.ChatFits | crates/hl-identity/src/message.rs:253-267 | a chat line whose text and certificate pass signs within its whole form's bound |
| Signing.NewsFits | crates/hl-identity/src/message.rs:316-339 | so does an article whose texts, type and certificate pass |
| Signing.ChatSigned | crates/hl-identity/src/message.rs:76-86 | a chat line signed parses whole as itself with a canonical text, to the same bytes, its scope's keys in whatever order it was built |
| Signing.NewsSigned | crates/hl-identity/src/message.rs:76-86 | the same for an article, its scope and parent |
| Registrar.ReadListed | crates/hl-identity/src/registrar.rs:742-751 | the loop gathers the entries, or fails at the first that is not one |
| Registrar.ParseList | crates/hl-identity/src/registrar.rs:729-780 | the entries the loop gathers, the fields in the source's order and the loops over both answer as the specification of a page does |
| Registrar.CheckClimbs | crates/hl-identity/src/registrar.rs:770-777 | the loop accepts exactly numbers strictly ascending from after `since` |
| Registrar.CheckPublisher | crates/hl-identity/src/registrar.rs:517-529 | the loop accepts a signature by any one key, and otherwise gives the last failure |
| Registrar.PageFits | crates/hl-identity/src/registrar.rs:684-724 | a page packed by the two overheads, its host at most 253 bytes, signs to no more than the limit |
| Registrar.PageReads | crates/hl-identity/src/registrar.rs:692-780 | a page signed reads back as itself, or fails for its publisher alone |
| Registrar.ParsedIff | crates/hl-identity/src/registrar.rs:729-780 | bytes are a page of a publisher exactly when they are a map of its fields, for its host, with numbers going up, signed by one of its keys |
| Registrar.PublisherIs | crates/hl-identity/src/registrar.rs:517-529 | with no keys it is a mismatch, and if all fail it is as the last does |
| Keys.Show | crates/hl-identity/src/keys.rs:81-103 | the shift loop over an unmasked 64-bit accumulator prints the 256 bits and four zeros in base 32 |
| Keys.Parse | crates/hl-identity/src/keys.rs:46-76 | the shift loop reads the number 52 digits spell, and refuses any other text or a nonzero tail |
| Keys.LowBits | crates/hl-identity/src/keys.rs:61-70 | the bits read off an accumulator that dropped its high ones are those of the whole number |
| Keys.ParseShown | crates/hl-identity/src/keys.rs:46-103 | every fingerprint printed parses to itself |
| Keys.ParsedIff | crates/hl-identity/src/keys.rs:46-103 | a text parses to a fingerprint exactly when, case and look-alikes folded, it is what that fingerprint prints as |
| Keys.ShownAt | crates/hl-identity/src/keys.rs:81-103 | each letter shows five bits, the highest first |
| Keys.AlphabetIs | crates/hl-identity/src/keys.rs:79 | the letters are those of Crockford's alphabet |
| Keys.ParsedSpells | crates/hl-identity/src/keys.rs:46-76 | and a text parses exactly when each of its 52 letters is the one shown, in either case, or an `o` for a zero, an `i` or an `l` for a one |
| Budget.Share.Take | crates/hxd-core/src/budget.rs:112-129 | the outcome and both counters after, unchanged by a refusal |
| Budget.Share.Give | crates/hxd-core/src/budget.rs:132-135 | both counters lowered |
| Budget.Share.Drop | crates/hxd-core/src/budget.rs:143-149 | what the share held goes back, and one share fewer |
| Budget.TakeAtMost | crates/hxd-core/src/budget.rs:112-129 | a take allowed past the budget leaves the share within the bound the others are in |
| Budget.PeakBound | crates/hxd-core/src/budget.rs:112-149 | over any run of takes, gives, joins and leaves, where a share that takes alone is held to the peak by its own bound, counters stay right and no share holds more than the budget or twice the largest item |
| Budget.RefusedIff | crates/hxd-core/src/budget.rs:119-127 | an item is refused for the server exactly when it passes the budget and would leave the share above the average while it holds over half of it without, and for the share exactly when it passes its own bound |
| Budget.FullestRefused | crates/hxd-core/src/budget.rs:119-127 | past the budget, the fullest of two or more is refused any item smaller than all that is held |
| Budget.AloneTakes | crates/hxd-core/src/budget.rs:119-127 | a share alone is answered by its own bound only |
| Budget.AloneWithinPeakIff | crates/hxd-core/src/budget.rs:112-129 | a share alone keeps to the peak whatever it is asked to hold exactly when its own bound does |
| BudgetSteps.StepConserves | crates/hxd-core/src/budget.rs:112-149 | each atomic instruction of each call keeps every counter equal to what is queued and in flight, but for wrapping |
| BudgetSteps.RunConserves | crates/hxd-core/src/budget.rs:74-149 | so does every interleaving |
| BudgetSteps.NeverUnderflows | crates/hxd-core/src/budget.rs:112-149 | while what is owed fits 64 bits, counters are exact and nothing subtracts more than is there |
| BudgetSteps.AtRest | crates/hxd-core/src/budget.rs:112-149 | with no call under way the counters are the bytes queued: a refusal nets to zero |
| BudgetSteps.EveryRun | crates/hxd-core/src/budget.rs:63-149 | both, for every run of any calls in any interleaving from a budget nobody has drawn on |
| BudgetSteps.AnyMayBegin | crates/hxd-core/src/budget.rs:112-149 | with no call under way any call on a live queue may begin, a give of no more than is queued |
| BudgetSteps.BudgetAgainstShares | crates/hxd-core/src/budget.rs:112-149 | the budget's counter is the sum of the shares', corrected by the calls under way |
| BudgetSteps.TakeAlone | crates/hxd-core/src/budget.rs:112-129 | uninterrupted, the instructions of a take do what the call does at once |
| Handovers.Walk | crates/hl-identity/src/handover.rs:194-232 | the loop answers the records, or the first check that fails |
| Handovers.WalkIff | crates/hl-identity/src/handover.rs:194-232 | it passes exactly the chains that parse, link by commitment, ascend in time within the clock's allowance, name each key once and end at the key that answered, and records each handover |
| Handovers.RefusalIff | crates/hl-identity/src/handover.rs:199-221 | which handover breaks the link, is out of time or repeats a key, the first of these being the answer |
| Handovers.PinIs | crates/hl-identity/src/handover.rs:238-242 | a first pin takes the records of the whole chain if it walks, and none if it does not or is too long |
| Handovers.HandoverIff | crates/hl-identity/src/handover.rs:52-67 | bytes are a handover exactly when they are a map of its fields, to another key, signed by the key that hands over |
| HandoverRuns.VerdictIff | crates/hl-identity/src/handover.rs:258-303 | each verdict is given exactly when: a fork, the key kept, its commitment changed, or a chain that carries the pin to the key that answered |
| HandoverRuns.AcceptedIs | crates/hl-identity/src/handover.rs:244-254 | a warning accepted moves the pin and adds no record, unless there is a fork |
| HandoverRuns.FollowMeans | crates/hl-identity/src/handover.rs:258-303 | what a verdict to follow was given for: a chain from the pinned key that keeps its commitment, later than every record, with no fork undismissed, each handover of it signed by the key that hands over |
| HandoverRuns.RunInOrder | crates/hl-identity/src/handover.rs:238-303 | over every run, warnings accepted or not, records ascend strictly in time and name no key twice |
| HandoverRuns.FirstPinInOrder | crates/hl-identity/src/handover.rs:238-242 | so do those of a first pin |
| HandoverRuns.RunJoined | crates/hl-identity/src/handover.rs:258-303 | every pin reached without a warning is joined to the first by an unbroken chain of commitments |
| HandoverRuns.OneHeir | crates/hl-identity/src/handover.rs:178-191 | with no fork dismissed, a handover followed has the hash of any other from its key that was followed, recorded on the way or recorded before |
| HandoverRuns.RecordsAreHistory | crates/hl-identity/src/handover.rs:258-303 | and unless two share a hash, the records are all that was followed, so no key is handed over twice |
| HandoverBatches.FetchLands | crates/hl-identity/src/handover.rs:258-303 | a client anywhere on a chain that fetches a longer stretch of it, served from no later than where it stands, lands at the stretch's end |
| HandoverBatches.TooFarBehind | crates/hl-identity/src/handover.rs:276-284 | one whose next handover is no longer served is warned, and stays where it was |
| HandoverBatches.BatchingDoesNotMatter | crates/hl-identity/src/handover.rs:165-303 | however many fetches it takes and however long the chain comes to be, each fetch served no more than the limit, the pin, the commitment and the records are those due at the end |
| HandoverBatches.FirstPinLands | crates/hl-identity/src/handover.rs:238-242 | a client that first pins has what one there from the first handover served has |
| HandoverBatches.PinThenFetch | crates/hl-identity/src/handover.rs:238-303 | a first pin and any schedule of fetches end as a first pin at the end does |
| Friendship.ChainEnd | crates/hl-identity/src/friendship.rs:522-538 | the loop answers as the rounds do |
| Friendship.ChainEndIff | crates/hl-identity/src/friendship.rs:522-538 | it ends at a key exactly when a path past no fork leads there and no rotation leads on; one round more than the rotations is enough |
| Friendship.ChainStraysIff | crates/hl-identity/src/friendship.rs:522-538 | it ends nowhere exactly when some path comes to a fork or back to a key it was at |
| Friendship.OrderDoesNotMatter | crates/hl-identity/src/friendship.rs:522-538 | neither the order nor the repetition of rotations matters |
| Friendship.WithdrawalStandsIff | crates/hl-identity/src/friendship.rs:413-436 | a withdrawal passes exactly when it names the pair, its signer stands at the end of an unforked chain from one of the two, its party is one of them and it reaches back no later than that party's rotations |
| Friendship.EndsNothingSince | crates/hl-identity/src/friendship.rs:513-515 | what passes is signed by no key rotated away from, and ends no half its party made at or after rotating |
| SealedMessages.Replay.Open | crates/hl-identity/src/sealed.rs:207-255 | the outcome and the memory after, in the order of the checks |
| OpenedBoxes.UnboxIff | crates/hl-identity/src/sealed.rs:259-299 | a box opens exactly if it is of one of the sizes and forms and its ciphertext does |
| OpenedBoxes.UnpadIff | crates/hl-identity/src/message.rs:666-677 | a padded map is exactly a canonical map's bytes and zeros after, to one of the form's sizes |
| OpenedBoxes.UnopenedIff | crates/hl-identity/src/sealed.rs:207-215 | a box is answered as not opened exactly when it holds no message to the reader |
| OpenedBoxes.AnswerIs | crates/hl-identity/src/sealed.rs:207-255 | the answer to a message held: dropped out of time or accepted before, shown as its certificate vouches, else invalid |
| OpenedBoxes.ShownProves | crates/hl-identity/src/sealed.rs:344-371 | what is shown as its signer's is in time, to the reader, under a certificate good at all three times that names whom the sender is shown as, and signed by its device or sealed under its key |
| SealedMessages.OnlyShownRemembered | crates/hl-identity/src/sealed.rs:207-255 | the memory gains an entry exactly when a message is shown, one that was not there |
| SealedMessages.AtMostOnce | crates/hl-identity/src/sealed.rs:154-165 | in every interleaving of clock, acceptance and pruning steps in which acceptances come in time, a message is shown once at most |
| SealedMessages.RefusedAgainIff | crates/hl-identity/src/sealed.rs:154-165 | a message shown is refused again, whatever has been pruned, exactly while the memory has not passed the point to which it is remembered |
| SealedMessages.RunRefusedAgainIff | crates/hl-identity/src/sealed.rs:154-165 | so it is after every run in time from an empty memory |
| SealedMessages.StalledShowsTwice | crates/hl-identity/src/sealed.rs:214-238 | without that, one that shows it twice |
| SealedMessages.RunAtMostOnce | crates/hl-identity/src/sealed.rs:207-255 | over every run of whole openings and pruning, clocks set back included, at most once, and again under one id only sent more than the skew later |
| SealedBoxes.PaddedReads | crates/hl-identity/src/sealed.rs:313-339 | what a sender pads, signed or deniably, reads as the message |
| SealedBoxes.SealedOpens | crates/hl-identity/src/sealed.rs:80-139 | every message that passes its checks, sealed in either form, opens as its signer's or deniably theirs and is remembered |
| Accounts.DerivedBit | crates/hxd-core/src/account.rs:243-253 | which bits are left under a mask, history in the wake of chat |
| Accounts.DerivedKeys | crates/hxd-core/src/account.rs:254-283 | each policy reads as named, or as it derives, unless the mask takes it or the bit it derives from |
| Accounts.MasksCompose | crates/hxd-core/src/account.rs:243-283 | deriving under two masks at once is having what each leaves, for every bit and key |
| Accounts.MasksTakeAway | crates/hxd-core/src/account.rs:136-142 | a mask only takes away |
| Accounts.Account.Derive | crates/hxd-core/src/account.rs:144-158 | every field assigned from the configuration and the mask |
| Accounts.Account.Masked | crates/hxd-core/src/account.rs:136-142 | a copy derived again, or as it reads with nothing masked |
| AccountFiles.Read | crates/hxd-auth-file/src/lib.rs:189-244 | the loops over roles, keys and numbers come to the configuration |
| AccountFiles.LoopsSay | crates/hxd-auth-file/src/lib.rs:200-222 | bit by bit: withheld by number, or set by number, or as its key says, or as the roles do |
| AccountFiles.ConfiguredBit | crates/hxd-auth-file/src/lib.rs:189-244 | of each bit, a number that withholds it counts, then one that sets it, then its key, and else any role that counts |
| AccountFiles.ConfiguredHistory | crates/hxd-auth-file/src/lib.rs:200-222 | what names the history bit, and which roles are kept as held |
| AccountFiles.ConfiguredPolicy | crates/hxd-auth-file/src/lib.rs:223-243 | each policy is as the file names it, or named by any role that counts and grants it |
| AccountFiles.NamelessBits | crates/hxd-core/src/access.rs:146-197 | which bits have no name and go by number |
| AccountFiles.MoreGrantedMoreResolved | crates/hxd-auth-file/src/lib.rs:189-244 | roles that grant more leave an account with no bit and no policy less |
| AccessTables.AccessTable.WriteAccess | crates/hxd-auth-file/src/lib.rs:1171-1237 | the table after: each key and both lists |
| AccessTables.AccessTable.WriteOverrides | crates/hxd-auth-file/src/lib.rs:1241-1263 | the table after: each key and both lists |
| AccessTables.PutGet | crates/hxd-auth-file/src/lib.rs:1171-1237 | for every table, role set, target and tier, each bit up to the tier resolves to the target |
| AccessTables.GetPut | crates/hxd-auth-file/src/lib.rs:1171-1237 | writing back what an account resolves to changes no bit and no policy, at any tier |
| AccessTables.AboveTier | crates/hxd-auth-file/src/lib.rs:1171-1237 | above the tier each bit is configured, set and withheld as before |
| AccessTables.FollowsRoles | crates/hxd-auth-file/src/lib.rs:1194-1201 | a bit the roles give and the target sets follows the roles from then on |
| AccessTables.WriteTwice | crates/hxd-auth-file/src/lib.rs:1171-1299 | a second identical write changes nothing |
| AccessTables.EditorWrite | crates/hxd-auth-file/src/lib.rs:909-919 | a bit an editor changed reads as sent, any other as the account had it |
| AccessTables.OverridesHold | crates/hxd-auth-file/src/lib.rs:1241-1263 | overrides set and withhold exactly what they name; the rest follows the roles |
| AccessTables.AscendingUnique | crates/hxd-auth-file/src/lib.rs:1280-1299 | a set of numbers is written in one way |
| Admin.BeyondTransitive | crates/hxd-core/src/admin.rs:47-63 | the rule is transitive, gated roles and role managers included |
| Admin.BeyondIff | crates/hxd-core/src/admin.rs:47-91 | not to be beyond is to have no bit, none of eight policies and, unless the other manages roles, no gated role that the other lacks |
| Admin.TakingAddsNothing | crates/hxd-auth-file/src/lib.rs:1062-1076 | taking a role from an account, the role itself going or not, brings nothing with it |
| Admin.NotHolding | crates/hxd-auth-file/src/lib.rs:1112-1122 | an account that does not hold a role reads the same whatever becomes of it |
| Admin.GrantsAreNotEnough | crates/hxd-core/src/admin.rs:594-619 | a role that grants nothing its editor lacks can still put a holder beyond the editor |
| Admin.Backing.WriteAccount | crates/hxd-core/src/admin.rs:329-363 | it goes through exactly when the actor has the bit, the account is there or not as asked, and neither as it was nor as it will be is it beyond the actor; and then writes that file only, which keeps every account within what all were within |
| Admin.Backing.DeleteAccount | crates/hxd-core/src/admin.rs:367-395 | it goes through exactly when the actor may delete and the account is not beyond it; and then deletes that file only, likewise |
| Admin.Backing.WriteRole | crates/hxd-auth-file/src/lib.rs:973-1041 | it goes through exactly when the actor manages roles and neither the role before or after nor any holder as it reads before or after is beyond it; and then changes that role only, likewise |
| Admin.Backing.AnyBeyond | crates/hxd-core/src/admin.rs:608-616 | the loop over the accounts that hold a role finds whether one is beyond the actor |
| Admin.Backing.DeleteRole | crates/hxd-auth-file/src/lib.rs:1043-1081 | it goes through, whole or cut short, exactly when the role is there, gates nothing, and neither it nor a holder is beyond the actor; and then each holder's file written loses the role, and the role goes last, likewise |
| Admin.RoleWriteWithin | crates/hxd-core/src/admin.rs:594-619 | making or changing a role, one that accounts already list included, keeps every account within some first one |
| Admin.RoleDeleteWithin | crates/hxd-auth-file/src/lib.rs:1043-1081 | so does deleting one, or beginning to |
| Admin.Envelope | crates/hxd-core/src/admin.rs:329-395 | over any run of account and role changes, no account is beyond all those there were at the start |
| Admin.EnvelopeHolds | crates/hxd-core/src/admin.rs:329-395 | so over any run each account has no bit, policy or gated role that some one account of the start did not have |
| FingerprintIndex.Disk.Place | crates/hxd-auth-file/src/lib.rs:580-585 | a file placed cannot have a stamp that had settled by then |
| FingerprintIndex.SettledOnArrivalIff | crates/hxd-auth-file/src/lib.rs:580-585 | a second is enough exactly while the grain of times and the delay of placing are within one |
| FingerprintIndex.StaysCoherent | crates/hxd-auth-file/src/lib.rs:295-307 | whatever is written, a remembered entry whose stamp the file still has holds what the file says |
| FingerprintIndex.Index.CarriesNow | crates/hxd-auth-file/src/lib.rs:1411-1438 | a yes was true at some moment of the call; with no write inside, the answer is exact |
| FingerprintIndex.Index.Entries | crates/hxd-auth-file/src/lib.rs:1303-1330 | each file's stamp taken in turn, with writes between: what was held when it was taken, and what is remembered under that stamp, agree |
| FingerprintIndex.Index.LoginFor | crates/hxd-auth-file/src/lib.rs:1338-1407 | an account found carried the key at some moment; with no write inside, one is found exactly when one carries it |
| Links.CarriesLinked | crates/hxd-auth-file/src/lib.rs:1395-1401 | whoever the index finds for an identity resolves to it |
| Links.FileAuth.WriteLink | crates/hxd-auth-file/src/lib.rs:1442-1485 | the link set or cleared in the file, the rest kept |
| Links.FileAuth.LinkIdentity | crates/hxd-auth-file/src/lib.rs:683-706 | with the indexed lookup, does what the ideal operation does, and each outcome exactly when it should |
| Links.FileAuth.RotateLink | crates/hxd-auth-file/src/lib.rs:708-721 | likewise: it moves the link exactly when the one identity is carried and the other is not |
| Links.FileAuth.UnlinkIdentity | crates/hxd-auth-file/src/lib.rs:723-733 | likewise: it is taken off a carrier exactly if that has a password |
| Links.FileAuth.FindOrCreateLinked | crates/hxd-auth-file/src/lib.rs:735-803 | likewise: a carrier if there is one, else a new account under the first name free |
| Links.ActKeepsIff | crates/hxd-auth-file/src/lib.rs:671-803 | no operation links an identity twice, from accounts that link each at most once, exactly when every text that names an identity is as shown but for case |
| Links.RunKeepsIff | crates/hxd-auth-file/src/lib.rs:671-803 | so for whole runs of them with administrators' writes and deletes |
| Links.OtherSpellingLinksTwice | crates/hxd-auth-file/src/lib.rs:1338-1341 | in every directory with a text that spells an identity otherwise, a second account is made for it |
| Links.AnotherSpellingIff | crates/hl-identity/src/keys.rs:55-59 | an identity has another spelling exactly when a zero or a one is shown of it |
| Links.LastDigit | crates/hl-identity/src/keys.rs:81-103 | which is so of every identity whose last bit is clear, half of all |
| Links.NeverCaptured | crates/hxd-auth-file/src/lib.rs:689-700 | no operation links an account with neither a password nor a link |
| Links.NeverOrphaned | crates/hxd-auth-file/src/lib.rs:723-733 | an account unlinked has a password |

## Left out

- Ed25519, X25519, HPKE, SHA-256 and certificate parsing are parameters; so are `is_host`, clocks, and the certificate a link form names.
- Machine words narrower than 64 bits: lengths are unbounded except where the encoding writes them, in 64 bits.
- Text is a sequence of bytes with a UTF-8 predicate; characters beyond validity are not modelled.
- The forms of a message, `seal` and `seal_acked` are values built by functions rather than lists pushed onto in place.
- Accounts.DerivedBit: bits are sets of numbers under 64, not the layout of the 64-bit word or its wire bytes.
- AccountFiles.Read: named keys are their bit numbers, the names table being one to one; of the ordered map's order only that the history bit's old name comes first is used.
- AccessTables.AccessTable.WriteAccess: a list that is empty and one that is absent are one, and comments, order of keys and values of the wrong type are not modelled.
- Parsing a role's entry (`into_role`), role names and titles, colors and display order.
- Admin.Envelope: the set of gated roles is fixed; edits made beside the server, account files that do not parse, the reserved login, and the session's own access check, which only refuses more, are outside the runs.
- Admin.Backing.WriteAccount: takes the file an edit would leave, whatever it is; reading an edit's changes of name, password and listed roles is not modelled.
- Admin.Backing.WriteRole: takes the role an edit would leave, likewise.
- FingerprintIndex.Index.LoginFor: file names are account logins in lower case; a directory's names are listed at one moment and scanned in no particular order, so which of several carriers is found is left open; a read that fails for other reasons than the file's absence or its content is not modelled.
- Links.RunKeepsIff: hand edits of account files are outside the runs, and the name proposed for a new account is a list of candidates.
- Budget.PeakBound: counters there are unbounded; wrapping is modelled in the interleaved steps.
- SealedMessages.Replay.Open: the memory is a map kept in one place; its storage across restarts is not modelled, nor is making the ciphertext.
- Friendship.WithdrawalStandsIff: of a withdrawal's six steps only the two against the pair and the rotations.
- Roster broadcasts, room reconciliation, file durability, HTTP and the relay.
