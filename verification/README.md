# Models of the terminal, the agent and the sandbox

A verification project beside the repository: its most stateful parts are written as Dafny
models, and what they promise is proved for every input, every run or every interleaving.

- **Terminal graphics.** `AtlasRegion` splits placements around holes without copying pixels.
  `GraphicsStore` states every operation of the two-screen image store as a relation,
  `TerminalGraphics` performs them in place and is proved against those relations, and `GraphicsBudget`
  proves what they keep over whole runs. `EvictionOutcome` and `AtlasKeys` say what they do to the
  images, graphics, numbers and textures themselves. `KittyImage` turns an upload into pixels and
  `KittyUpload` assembles chunked uploads.
- **Agent conversations.** `Wire` rebuilds a message from its stream, `Transcript` holds the
  transcript, `Chat` shows it, `Agent` runs turns. `AgentProtocol` proves the shape of the
  transcript over whole runs, `TurnRecord` what a turn records, repeats and ends with, and
  `ChatShows` what the reader sees of it; `ConversationViews` and `ViewsAgree` prove when the chat a user
  watched is the chat they see on reopening it.
- **Jobs.** `Utf8` and `JobOutput` decode and buffer a job's output; `JobRegistry` interleaves
  endings, kills and prunes, and `JobEndings` proves how jobs end.
- **Files.** `GuestPath` and `SymlinkResolver` resolve symlinks inside a root.
- **Protocols and codecs.** `CancelProtocol`, `RootfsInstaller`, `GlyphContainer`, `ShellQuote`.

Where the source works in place the model is a class or a loop proved equal to a function or
relation over values, and the properties are proved about that. Hash-map order is left open:
an operation that walks a map carries the order it used. The model server, tools, the user's
stop button, the network, clocks and failures of single effects are inputs, so a statement
about every run holds for everything they could do.

Where a promised property does not hold of the code, the code is modelled as it is, the exact
condition is proved, and a case that fails is given:

- One hole splits correctly exactly when it misses, is in order or has no rows
  (`AtlasRegion.ClipTilesIff`, `AtlasRegion.InvertedOverlaps`), and a sequence of holes throughout
  exactly when each does that to every child left when it comes (`AtlasRegion.HolesTileIff`). No
  caller in the source passes an inverted hole; one without cells is harmless.
- The byte budget is too large by exactly the image bytes that deletes and resets dropped, so it
  is exact exactly when they dropped none (`GraphicsBudget.RunKeepsBudget`,
  `GraphicsBudget.RunIsExactIff`, `GraphicsBudget.DeleteLeaks`, `GraphicsBudget.ResetLeaks`).
- An eviction leaves no dangling placement exactly when its scan ran or none dangled before
  (`GraphicsBudget.EvictSweeps`, `GraphicsBudget.SweepSkipped`).
- Uploads stay within the cap exactly when no first chunk alone is over it
  (`KittyUpload.RunWithinCapIff`, `KittyUpload.OversizedFirstChunk`).
- Every tool call is answered exactly unless a message that calls tools was declined
  (`AgentProtocol.TurnKeepsShape`, `AgentProtocol.RunAnswersAllIff`,
  `AgentProtocol.RefusalLeavesCallOpen`, `AgentProtocol.DeclinedRoundRefuses`).
- The live and the restored chat agree exactly when every turn settles: a failed or stopped
  response that already showed text, a declined message with calls, and a turn that could not
  start leave them apart (`ViewsAgree.TurnView`, `ViewsAgree.ConversationView`,
  `ViewsAgree.StoppedIsUnsettled`, `ViewsAgree.SetupFailureView`).
- A directory marked ready is the complete unpacking of its archive exactly when the installation
  that made it found nothing foreign in the scratch directory and the last entry of every path
  came out right (`RootfsInstaller.ReadyIsComplete`, `RootfsInstaller.PassedOverLooksReady`,
  `RootfsInstaller.LeftOverLooksReady`).

The resolver normalises `..` in the given path before it follows any link, as the source does;
`..` inside a link's target is walked. So its reference is the walk over the normalised path.

## Model

| member | source | states |
|---|---|---|
| `AtlasRegion.SubtractRect` | patches/rio-vt/src/ansi/graphics.rs:446-489 | Reports a hit unless the hole lies entirely beside the placement, and then appends exactly the surviving pieces; a miss appends nothing. |
| `AtlasRegion.ClipPlacements` | patches/rio-vt/src/crosswords/mod.rs:1334-1363 | The clip loop over a screen replaces each placement by its pieces, in order, and says whether any was hit. |
| `AtlasRegion.EdgeExact` | patches/rio-vt/src/ansi/graphics.rs:408-437 | On a well-formed placement no `u32` edge computation wraps, and every cell boundary but the last lies inside the crop. |
| `AtlasRegion.SliceCompose` | patches/rio-vt/src/ansi/graphics.rs:408-437 | A slice of a slice is a slice of the original: repeated splits never drift. |
| `AtlasRegion.ClipTilesIff` | patches/rio-vt/src/ansi/graphics.rs:446-489 | One subtraction leaves disjoint pieces covering exactly the placement minus the hole if and only if the hole misses, or is in order, or has no rows. |
| `AtlasRegion.InvertedOverlaps` | patches/rio-vt/src/ansi/graphics.rs:446-489 | An inverted hole that hits makes pieces that overlap: the one failing case is real. |
| `AtlasRegion.HolesTileIff` | patches/rio-vt/src/ansi/graphics.rs:446-489 | Over any sequence of holes, the children stay disjoint slices covering exactly what no hole covers after every subtraction, if and only if no inverted hole with rows hits a child that is there when it comes. |
| `AtlasRegion.HolesTile` | patches/rio-vt/src/ansi/graphics.rs:446-489 | After any sequence of ordered holes, empty ones included, the children are pairwise disjoint, well-formed slices covering exactly the original cells minus the union of the holes. |
| `AtlasRegion.SlicePixels` | patches/rio-vt/src/ansi/graphics.rs:408-437 | A slice shows exactly the original's pixels on its cells, each on the grid cell it was on. |
| `AtlasRegion.HolesKeepPixels` | patches/rio-vt/src/ansi/graphics.rs:446-489 | Every surviving source pixel is shown by exactly one child, on its old cell; a pixel under a hole is shown by none. |
| `AtlasRegion.HolesConserveArea` | patches/rio-vt/src/ansi/graphics.rs:446-489 | Pixel area is conserved: the children's areas sum to the surviving pixels, and with the lost pixels to the whole. |
| `AtlasRegion.InsertedWellFormed` | patches/rio-vt/src/crosswords/mod.rs:4839-4880 | What an image insertion places is well-formed, so the results hold for every placement that arises. |
| `AtlasRegion.InsertedPixels` | patches/rio-vt/src/crosswords/mod.rs:4839-4880 | An inserted image is shown whole, every pixel on the cell that its distance from the corner, divided by the cell size, says. |
| `AtlasRegion.ChildrenShowSame` | patches/rio-vt/src/ansi/graphics.rs:408-489 | Whatever holes are punched, ordered or not, every child shows the same texture at the same scale. |
| `TerminalGraphics.Graphics.EvictImages` | patches/rio-vt/src/ansi/graphics.rs:1014-1215 | The in-place scan, sort, prefix and removal take the front of some eviction queue of the store and leave exactly the evicted store, with the result telling whether enough was freed. |
| `TerminalGraphics.Graphics.StoreKittyImage` | patches/rio-vt/src/ansi/graphics.rs:929-970 | Stores after making room, gives back the bytes of a replaced image, and changes nothing else. |
| `TerminalGraphics.Graphics.TrackGraphic` | patches/rio-vt/src/ansi/graphics.rs:1234-1244 | Adds exactly the graphic's size to the budget and records it. |
| `TerminalGraphics.Graphics.UntrackGraphic` | patches/rio-vt/src/ansi/graphics.rs:1246-1254 | Forgets the graphic and takes its bytes off the budget. |
| `TerminalGraphics.Graphics.RecountAtlasKeys` | patches/rio-vt/src/ansi/graphics.rs:785-827 | Recounts key references and releases exactly the keys that lost their last placement, in whatever order the map yields them. |
| `TerminalGraphics.Graphics.RecountInactiveAtlasKeys` | patches/rio-vt/src/ansi/graphics.rs:794-827 | The same for the inactive screen. |
| `TerminalGraphics.Graphics.UntrackAtlasKeys` | patches/rio-vt/src/ansi/graphics.rs:829-843 | Gives back the bytes of released keys no screen still shows. |
| `TerminalGraphics.Graphics.SwapKittyScreenState` | patches/rio-vt/src/ansi/graphics.rs:845-872 | Exchanges everything the two screens own and nothing else. |
| `TerminalGraphics.Graphics.DeleteKittyImages` | patches/rio-vt/src/ansi/graphics.rs:986-998 | Drops the chosen images and their numbers; the budget is left alone. |
| `TerminalGraphics.Graphics.ClearAllKittyState` | patches/rio-vt/src/ansi/graphics.rs:874-925 | Empties both screens, gives back inactive-screen and uploaded atlas bytes, keeps graphics still waiting for upload. |
| `TerminalGraphics.Graphics.InsertImage` | patches/rio-vt/src/crosswords/mod.rs:4722-4887 | Makes room, takes the next id, tracks it, records the placement, recounts, and queues the pixels. |
| `GraphicsBudget.EvictedBytes` | patches/rio-vt/src/ansi/graphics.rs:1014-1215 | Eviction releases exactly the bytes of its victims: none twice, none missed. |
| `GraphicsBudget.EvictKeepsBudget` | patches/rio-vt/src/ansi/graphics.rs:1014-1215 | The subtraction never clips, coverage and exactness survive, and the result is true exactly when the request now fits. |
| `GraphicsBudget.EvictSweeps` | patches/rio-vt/src/ansi/graphics.rs:1014-1215 | No kitty placement is left without its image on its own screen if and only if the scan ran or none dangled before: the early returns sweep nothing. |
| `GraphicsBudget.EvictKeepsUsedPending` | patches/rio-vt/src/ansi/graphics.rs:1064-1085 | A pending graphic in use is never evicted. |
| `GraphicsBudget.VictimFacts` | patches/rio-vt/src/ansi/graphics.rs:1121-1145 | Whatever queue was used, the victims are candidates, none twice, none after a candidate that stays, and no more than needed. |
| `GraphicsBudget.EvictInOrder` | patches/rio-vt/src/ansi/graphics.rs:1041-1145 | A shown image is a victim only when nothing but newer shown images survives; an unused image or a waiting graphic only when no image of the other screen and nothing unused and older survives; and the other screen's images go oldest first. |
| `GraphicsBudget.EvictDeterministic` | patches/rio-vt/src/ansi/graphics.rs:1054-1145 | Unless two candidates tie in tier and time, the store alone decides victims, result and new store, whatever order the maps are walked in. |
| `GraphicsBudget.EvictMinimal` | patches/rio-vt/src/ansi/graphics.rs:1120-1145 | Without its last victim the request would not have fitted. |
| `GraphicsBudget.EvictStripsNamesake` | patches/rio-vt/src/ansi/graphics.rs:1146-1175 | Evicting a kitty image of either screen removes the timestamp of a surviving pending atlas graphic with the same number, which keeps its bytes. |
| `EvictionOutcome.ShownGoesLast` | patches/rio-vt/src/ansi/graphics.rs:1014-1215 | When an image on show is lost, the other screen is empty, no idle graphic that could go is left, and every image left is on show and no older. |
| `EvictionOutcome.IdleGoesBeforeShown` | patches/rio-vt/src/ansi/graphics.rs:1014-1215 | When an image that nothing shows is lost, the other screen is empty and nothing idle and older is left. |
| `EvictionOutcome.WaitingGoesBeforeShown` | patches/rio-vt/src/ansi/graphics.rs:1014-1215 | The same when a graphic waiting for upload is lost. |
| `EvictionOutcome.InactiveGoesOldestFirst` | patches/rio-vt/src/ansi/graphics.rs:1014-1215 | The other screen loses no image while it keeps an older one. |
| `EvictionOutcome.NumbersGoWithImages` | patches/rio-vt/src/ansi/graphics.rs:1146-1215 | On either screen a number is forgotten exactly with the image it names. |
| `EvictionOutcome.TexturesGoWithImages` | patches/rio-vt/src/ansi/graphics.rs:1146-1215 | The textures queued for removal are exactly those of what was lost, an atlas graphic's at 2^32 above its id. |
| `EvictionOutcome.PlacementsGoWithImages` | patches/rio-vt/src/ansi/graphics.rs:1146-1215 | The sweep drops exactly the placements whose image is not on their screen. |
| `EvictionOutcome.StoringFits` | patches/rio-vt/src/ansi/graphics.rs:929-970 | A stored image is there under its id and number; nothing else goes when it fits, and the store is left over its limit only when nothing but the new image is left that could go. |
| `EvictionOutcome.StoringSparesShown` | patches/rio-vt/src/ansi/graphics.rs:929-970 | Storing drops an image that some placement shows only when, beside the new one, only shown images are left on either screen. |
| `GraphicsBudget.StrippedNeverCandidate` | patches/rio-vt/src/ansi/graphics.rs:1064-1085 | Over every run a pending graphic whose timestamp is gone is never an eviction candidate again. |
| `GraphicsBudget.ClearKeepsCover` | patches/rio-vt/src/ansi/graphics.rs:874-925 | A full reset leaves exactly the active screen's image bytes on the books. |
| `GraphicsBudget.DeleteKeepsCover` | patches/rio-vt/src/ansi/graphics.rs:986-998 | A delete keeps the inequality; what is held drops by exactly the deleted images' bytes, the total does not. |
| `GraphicsBudget.RecountKeepsPlaced` | patches/rio-vt/src/ansi/graphics.rs:785-843 | A graphic still placed survives a recount with its bytes. |
| `AtlasKeys.CountsPlacements` | patches/rio-vt/src/ansi/graphics.rs:803-822 | A recount counts every placed key as often as it is placed, and no other. |
| `AtlasKeys.RecountReleases` | patches/rio-vt/src/ansi/graphics.rs:785-843 | A recount forgets exactly the graphics that left the screen and are not on the other, and queues exactly the textures the screen lost. |
| `AtlasKeys.RecountInactiveReleases` | patches/rio-vt/src/ansi/graphics.rs:794-843 | The same for the inactive screen. |
| `AtlasKeys.InsertedIsShown` | patches/rio-vt/src/crosswords/mod.rs:4722-4887 | An inserted image takes a number never used, is placed last, keeps its time and is queued last with its pixels. |
| `AtlasKeys.ResetForgetsScreens` | patches/rio-vt/src/ansi/graphics.rs:874-925 | A full reset empties both screens, keeps what waits for upload with its bytes, and queues the texture of every key a screen referred to. |
| `AtlasKeys.DeleteIsExact` | patches/rio-vt/src/ansi/graphics.rs:986-998 | A delete removes exactly the chosen images and their numbers, from the active screen only. |
| `AtlasKeys.RunKeepsNumbers` | patches/rio-vt/src/ansi/graphics.rs:785-1254 | In every reachable state a number that is remembered names an image of its screen. |
| `GraphicsBudget.InsertKeepsBudget` | patches/rio-vt/src/crosswords/mod.rs:4722-4887 | A new image is tracked at its own size after its own insertion, and the budget stays covered and as exact as it was. |
| `GraphicsBudget.RunKeepsBudget` | patches/rio-vt/src/ansi/graphics.rs:785-1254 | In every reachable state the total is exactly everything held plus the image bytes that deletes and resets dropped so far. |
| `GraphicsBudget.RunIsExactIff` | patches/rio-vt/src/ansi/graphics.rs:785-1254 | The total is exactly what is held if and only if every delete and reset so far dropped no image bytes. |
| `GraphicsBudget.DeleteLeaks` | patches/rio-vt/src/ansi/graphics.rs:986-998 | Exactness does fail across a delete: a two-step run leaves an empty store with bytes on the books. |
| `GraphicsBudget.ResetLeaks` | patches/rio-vt/src/ansi/graphics.rs:874-925 | And across a reset. |
| `GraphicsBudget.SweepSkipped` | patches/rio-vt/src/ansi/graphics.rs:1014-1118 | A run of stores and a delete ends in an eviction that finds no candidate and gives up before its sweep, with a placement left without its image. |
| `KittyImage.ExpandPixels` | patches/rio-vt/src/ansi/kitty_graphics_protocol.rs:1443-1557 | The pixel loop builds the RGBA expansion and the opacity flag of every raw format. |
| `KittyImage.ExpandShows` | patches/rio-vt/src/ansi/kitty_graphics_protocol.rs:1443-1557 | In the expansion every pixel has the channels of its source pixel. |
| `KittyImage.ExpandedPixel` | patches/rio-vt/src/ansi/kitty_graphics_protocol.rs:1443-1557 | Pixel by pixel and format by format, which bytes of the payload become its red, green, blue and alpha. |
| `KittyImage.OpaqueIff` | patches/rio-vt/src/ansi/kitty_graphics_protocol.rs:1443-1557 | An image counts as opaque exactly when no pixel has an alpha below 255. |
| `KittyImage.RawUploadIff` | patches/rio-vt/src/ansi/kitty_graphics_protocol.rs:1024-1557 | A direct raw upload is accepted if and only if its dimensions are in range and its payload holds one image and at most the cap; the image is then the payload's pixels. |
| `KittyImage.RawUploadIs` | patches/rio-vt/src/ansi/kitty_graphics_protocol.rs:1024-1557 | Every direct raw upload gives its image, or the message of the first thing that is wrong with it. |
| `KittyImage.ResizeIs` | patches/rio-vt/src/ansi/kitty_graphics_protocol.rs:1024-1440 | The size asked for: none, one axis with the other in proportion, or both. |
| `KittyImage.UploadIsItsBytes` | patches/rio-vt/src/ansi/kitty_graphics_protocol.rs:1024-1440 | Compressed data makes the image of what it inflates to, and a file or shared memory the image of what it holds. |
| `KittyImage.UnreadableUpload` | patches/rio-vt/src/ansi/kitty_graphics_protocol.rs:1024-1440 | Bytes that cannot be read or inflated, or inflate past the cap, make no image and say why. |
| `KittyImage.PngUploadIs` | patches/rio-vt/src/ansi/kitty_graphics_protocol.rs:1024-1440 | A PNG brings its own size, refused when out of range. |
| `KittyImage.UploadReply` | patches/rio-vt/src/ansi/kitty_graphics_protocol.rs:573-680 | An upload is answered exactly when its sender named the image itself and is not quiet about the outcome; it is placed exactly when asked for and possible. |
| `KittyImage.QueryReply` | patches/rio-vt/src/ansi/kitty_graphics_protocol.rs:573-794 | A query is answered as the upload would be, and makes nothing. |
| `KittyImage.PutReply` | patches/rio-vt/src/ansi/kitty_graphics_protocol.rs:573-794 | A placement carries the answers for an image that is there and for one that is not. |
| `KittyImage.DeleteReply` | patches/rio-vt/src/ansi/kitty_graphics_protocol.rs:573-794 | A delete is never answered; an upper-case letter asks for the data to go too. |
| `KittyImage.UnsupportedReply` | patches/rio-vt/src/ansi/kitty_graphics_protocol.rs:760-794 | Any other action is refused even when it names nothing, unless the sender wants no failures. |
| `KittyImage.RespondIgnoresChunking` | patches/rio-vt/src/ansi/kitty_graphics_protocol.rs:573-794 | The reply does not depend on the chunk flag or on when the command was touched. |
| `KittyUpload.KittyGraphicsState.AllocateImageId` | patches/rio-vt/src/ansi/kitty_graphics_protocol.rs:48-56 | The in-place allocator returns the next automatic id and advances the counter, wrapping inside the upper half. |
| `KittyUpload.KittyGraphicsState.EvictStaleChunks` | patches/rio-vt/src/ansi/kitty_graphics_protocol.rs:942-967 | Drops exactly the uploads idle for the timeout, and the pinned key with its entry. |
| `KittyUpload.KittyGraphicsState.Parse` | patches/rio-vt/src/ansi/kitty_graphics_protocol.rs:461-571 | The in-place command handler makes the transition and gives the answer of the specification on every branch. |
| `KittyUpload.NextValid` | patches/rio-vt/src/ansi/kitty_graphics_protocol.rs:461-571 | After a command the pinned key is 0 or names an entry, and no key is 0. |
| `KittyUpload.RunValid` | patches/rio-vt/src/ansi/kitty_graphics_protocol.rs:461-571 | The same over every run of commands, undecodable ones included. |
| `KittyUpload.StepWithinCapIff` | patches/rio-vt/src/ansi/kitty_graphics_protocol.rs:493-560 | An event takes some upload past the cap if and only if it is a first chunk that alone is over it. |
| `KittyUpload.RunWithinCapIff` | patches/rio-vt/src/ansi/kitty_graphics_protocol.rs:493-560 | Every state of a run is within the cap if and only if no event of the run is such a first chunk. |
| `KittyUpload.OversizedFirstChunk` | patches/rio-vt/src/ansi/kitty_graphics_protocol.rs:500-527 | The failing case is one command away from a fresh terminal. |
| `KittyUpload.AllocatedIds` | patches/rio-vt/src/ansi/kitty_graphics_protocol.rs:48-56 | Whatever arrives in between, the allocated ids run through the upper half in order. |
| `KittyUpload.AllocatedDistinct` | patches/rio-vt/src/ansi/kitty_graphics_protocol.rs:48-56 | Any 2^31 consecutive automatic ids are distinct and at least 0x80000000. |
| `KittyUpload.FinishesAssembles` | patches/rio-vt/src/ansi/kitty_graphics_protocol.rs:461-571 | From any point of an upload, however the rest is cut and interleaved, the last chunk is answered with the stored bytes followed by all later ones, and the entry is gone. |
| `KittyUpload.UploadAsOneCommand` | patches/rio-vt/src/ansi/kitty_graphics_protocol.rs:461-571 | Any split of a payload under one key, interleaved with other uploads and commands, is answered as one unchunked command with the first chunk's metadata, and leaves nothing behind. |
| `KittyUpload.IdleUploadsAreDropped` | patches/rio-vt/src/ansi/kitty_graphics_protocol.rs:461-571 | Every command not refused drops exactly the other uploads idle for ten seconds, and the pin with its upload. |
| `KittyUpload.IdleUploadRestarts` | patches/rio-vt/src/ansi/kitty_graphics_protocol.rs:461-571 | An upload idle for ten seconds is begun anew: a complete command is answered for its own payload, a chunk stored alone. |
| `KittyUpload.LiveUploadGoesOn` | patches/rio-vt/src/ansi/kitty_graphics_protocol.rs:493-560 | Otherwise a chunk is appended, a last chunk answered with everything, and a chunk past the cap drops the upload without an answer. |
| `KittyUpload.WhichUpload` | patches/rio-vt/src/ansi/kitty_graphics_protocol.rs:445-482 | A command belongs to the upload it names, else to the one the last chunk went to, else to a new one under an id of the terminal's own. |
| `KittyUpload.RefusedChangesNothing` | patches/rio-vt/src/ansi/kitty_graphics_protocol.rs:405-445 | A command that names an image twice, or queries none, changes nothing and is told so. |
| `Wire.StreamAccumulator.PushEvent` | crates/mc-agent/src/wire.rs:99-200 | The in-place step equals the step of the specification, emission included. |
| `Wire.BlockFromOwnEvents` | crates/mc-agent/src/wire.rs:99-200 | A block is what its own events make of it, whatever is interleaved. |
| `Wire.ContentFromProjections` | crates/mc-agent/src/wire.rs:210-235 | Two streams that send every block the same events give the same content. |
| `Wire.BlockClosedForm` | crates/mc-agent/src/wire.rs:99-235 | A block started before its deltas ends as its opening plus the ordered concatenation of the deltas of its kind; an unmodelled block ends as it came. |
| `Wire.ContentClosedForm` | crates/mc-agent/src/wire.rs:99-235 | The whole finished content is the closed forms of the started blocks in index order, whatever order their events came in. |
| `Wire.FinishedContent` | crates/mc-agent/src/wire.rs:99-235 | A finished message holds one block per started index, in index order: its text, its thoughts with their signature, its call with the input its chunks spell or an empty object, or what it came as. |
| `Wire.CallsOfContent` | crates/mc-agent/src/wire.rs:26-38 | The calls of a message are found part by part, in order. |
| `Wire.CallsOfOne` | crates/mc-agent/src/wire.rs:26-38 | A block is a call exactly when it is one. |
| `Wire.StopReasonIsLast` | crates/mc-agent/src/wire.rs:175-196 | The stop reason is the last one given, whatever else arrives. |
| `Wire.StopDetailsAreLast` | crates/mc-agent/src/wire.rs:175-196 | So are its details; a null does not count. |
| `Wire.UsageIsLastTold` | crates/mc-agent/src/wire.rs:250-262 | Every count of the usage is what was last told of it. |
| `Wire.EmitsWhatIsAdded` | crates/mc-agent/src/wire.rs:99-200 | What an event gives out is exactly what it adds to its block. |
| `Wire.StreamedTextIsFinal` | crates/mc-agent/src/wire.rs:99-235 | In a stream in documented order, the text emitted along the way is the text of the finished message. |
| `Transcript.Session.FindCut` | crates/mc-core/src/session.rs:173-178 | The backward search returns the latest prompt that keeps the recent turns, if there is one past the first turn. |
| `Transcript.Session.DropBefore` | crates/mc-core/src/session.rs:197-202 | Drops the prefix, records the summary, returns how many turns went. |
| `Transcript.LastPromptIff` | crates/mc-core/src/session.rs:173-190 | The cut is a prompt, the last such one, and missing exactly when there is none. |
| `Transcript.CutIff` | crates/mc-core/src/session.rs:173-190 | There is a cut exactly when something was typed after the first turn and no later than where the recent turns begin, and it is the last such place. |
| `Transcript.CompactKeepsShape` | crates/mc-core/src/session.rs:173-202 | Cutting where compaction cuts keeps every result next to its call and every call answered. |
| `Transcript.OtherCutsBreak` | crates/mc-core/src/session.rs:160-172 | A cut anywhere keeps every result next to its call if and only if it does not start with results. |
| `Chat.ChatLog.ApplyEvent` | crates/mc-core/src/chat.rs:139-249 | The in-place handler of each event equals the specification. |
| `Chat.ChatLog.FromSession` | crates/mc-core/src/chat.rs:69-133 | The in-place restoring loops equal the specification, interruption of unsettled tools included. |
| `Agent.AgentLoop.StreamOnce` | crates/mc-agent/src/lib.rs:485-562 | One request returns and publishes what the attempt amounts to, stopping at the end of the message. |
| `Agent.AgentLoop.StreamWithRetry` | crates/mc-agent/src/lib.rs:448-482 | The retry loop returns and publishes what the bounded recursion over attempts does. |
| `Agent.AgentLoop.RunTools` | crates/mc-agent/src/lib.rs:285-335 | Every call is requested, completed and answered in order; once stopped, the rest are answered unrun. |
| `Agent.AgentLoop.Compact` | crates/mc-agent/src/lib.rs:371-393 | Compaction happens only with a safe cut and a summary, and reports what it dropped. |
| `Agent.AgentLoop.RunTurnCancellable` | crates/mc-agent/src/lib.rs:217-342 | The in-place turn loop does to session and bus what the specification of a turn says, for every model, tool, stop and summary. |
| `AgentProtocol.ResultsAnswer` | crates/mc-agent/src/lib.rs:285-330 | There is one result per call, in order, run or not. |
| `TurnRecord.CallIsAnswered` | crates/mc-agent/src/lib.rs:285-330 | Call by call: the recorded result and the two published events say what the tool said, unless the user stopped the turn at this call or before it, and then that it was not run. |
| `TurnRecord.RoundGoesOnIff` | crates/mc-agent/src/lib.rs:231-342 | A turn goes on exactly when the model asked for tools and nobody stopped them, or when a request was refused for length for the first time and the conversation could be shortened. |
| `TurnRecord.TurnIsItsRounds` | crates/mc-agent/src/lib.rs:217-342 | A turn is the rounds that go on and the first that does not; it is a runaway exactly when 64 go on. |
| `TurnRecord.LastMessageIsRecorded` | crates/mc-agent/src/lib.rs:256-283 | A message that ends the turn is recorded and announced, and then the conversation is shortened exactly when the message filled the context to the limit. |
| `TurnRecord.CallsAreRecorded` | crates/mc-agent/src/lib.rs:256-342 | A message with calls is recorded with all its answers, and a stop then ends the turn. |
| `TurnRecord.RefusalIsRecorded` | crates/mc-agent/src/lib.rs:256-277 | A declined message is recorded, its calls are not run, and the reader is told. |
| `TurnRecord.StopIsHonoured` | crates/mc-agent/src/lib.rs:231-238 | A stop before a request asks the model nothing, and a stop during one records nothing of the answer. |
| `TurnRecord.CompactionKeeps` | crates/mc-agent/src/lib.rs:361-393 | Shortening keeps everything from the last thing typed before the recent turns on, and happens only with such a place and a summary. |
| `TurnRecord.TooLongIff` | crates/mc-agent/src/lib.rs:653-662 | A refusal counts as one for length exactly with status 400 or 413 and one of four phrases in its body, in either case of letters. |
| `TurnRecord.TokensAre` | crates/mc-agent/src/lib.rs:627-629 | The tokens in use are read when the usage has them, in 32 bits. |
| `TurnRecord.RetriesIff` | crates/mc-agent/src/lib.rs:448-482 | An attempt is repeated exactly when it could not be sent or broke off in transit, at most four times. |
| `TurnRecord.RequestResult` | crates/mc-agent/src/lib.rs:448-562 | A request comes to what the attempt that counts came to: the message before its end, or which failure it was. |
| `TurnRecord.PromptEndsOnce` | crates/mc-agent/src/worker.rs:60-140 | Every prompt begins and ends exactly one turn; a failure is the last thing said, in the words of its configuration. |
| `TurnRecord.OpenedChatIsThat` | crates/mc-agent/src/worker.rs:60-140 | Opening a chat leaves exactly that chat, a new one an empty one, and the reader is told. |
| `AgentProtocol.TurnKeepsShape` | crates/mc-agent/src/lib.rs:217-342 | After any turn results directly follow the calls they answer; every call is answered if and only if the turn declined no message that calls tools. |
| `AgentProtocol.RunKeepsPaired` | crates/mc-agent/src/lib.rs:217-393 | Over every run of prompts, stops, errors, retries and compactions each turn of results directly follows the turn whose calls it answers, exactly and in order. |
| `AgentProtocol.RunAnswersAll` | crates/mc-agent/src/lib.rs:217-393 | Over runs of prompts and of new and reopened chats, compactions included, in which no message that calls tools is declined, every call is answered whenever the worker is idle. |
| `AgentProtocol.RunAnswersAllIff` | crates/mc-agent/src/lib.rs:217-342 | Over every run of prompts without a compaction, every call is answered at the end if and only if no turn of the run declined a message that calls tools. |
| `AgentProtocol.RefusalNeverHeals` | crates/mc-agent/src/lib.rs:265-277 | After a turn that declined calls, whatever is prompted later, some call stays unanswered until a compaction is published. |
| `AgentProtocol.RefusalLeavesCallOpen` | crates/mc-agent/src/lib.rs:265-277 | The failing case is reachable: declining the first message that calls a tool. |
| `AgentProtocol.DeclinedRoundRefuses` | crates/mc-agent/src/lib.rs:265-277 | A concrete event stream does so: one tool call begins and the stop reason is a refusal. |
| `ConversationViews.RetryDiscards` | crates/mc-core/src/chat.rs:139-249 | A broken attempt leaves only its notice behind. |
| `ConversationViews.RetriesLeaveLast` | crates/mc-agent/src/lib.rs:448-482 | After any number of retries the chat holds what was there, the notices, and what the last attempt streamed. |
| `TurnRecord.RetriesAreShown` | crates/mc-agent/src/lib.rs:448-482 | Each repeated attempt leaves one notice, numbered from 1 and saying why. |
| `ChatShows.BusyWhileTheTurnRuns` | crates/mc-core/src/chat.rs:139-249 | The chat is busy while a turn goes on and idle once its prompt was dealt with, however that went. |
| `ChatShows.StreamIsShown` | crates/mc-core/src/chat.rs:139-249 | What streams is shown, character by character in order, one item for each stretch of thought or of speech. |
| `ChatShows.ThoughtsStayHidden` | crates/mc-agent/src/lib.rs:520-545 | Thoughts are not published when the configuration does not ask for them. |
| `ChatShows.ThoughtsAreShown` | crates/mc-agent/src/lib.rs:520-545 | And all of them are, in their place, when it does. |
| `ChatShows.TurnEndShows` | crates/mc-core/src/chat.rs:202-213 | A turn that ends as it should adds nothing, any other ending one line that says so. |
| `ChatShows.FailureShows` | crates/mc-core/src/chat.rs:214-228 | A failure ends every running call as interrupted, leaves the rest alone, and is the last item. |
| `ChatShows.ContextIsLastTold` | crates/mc-core/src/chat.rs:139-249 | The context in use is what was last told, until another chat is opened. |
| `ChatShows.CompactionAndOpeningShow` | crates/mc-core/src/chat.rs:139-249 | Shortening the conversation says how much went; opening another chat starts from nothing. |
| `ChatShows.FirstLineIs` | crates/mc-core/src/chat.rs:253-263 | The line that sums up a call has no line break and is the text up to the first one. |
| `ChatShows.CallIsSummed` | crates/mc-core/src/chat.rs:253-263 | A known tool is summed up by its command, path or pattern, when that is text. |
| `ChatShows.ReopenedIsQuiet` | crates/mc-core/src/chat.rs:69-133 | A reopened chat is idle with nothing running, and begins with a notice exactly when earlier messages were summarised. |
| `ConversationViews.StreamShows` | crates/mc-agent/src/lib.rs:448-562 | A request adds to the normalised chat exactly the text of its last attempt. |
| `ConversationViews.LiveTools` | crates/mc-core/src/chat.rs:139-249 | Live, every call ends up settled with its own outcome, in order. |
| `TurnRecord.CallIsShown` | crates/mc-core/src/chat.rs:139-249 | A call that ran is shown with what its tool said, as succeeded or failed; one that was stopped is shown as failed and not run. |
| `ConversationViews.RestoredMessage` | crates/mc-core/src/chat.rs:69-133 | A recorded message restores as its text, then its calls, still running. |
| `ConversationViews.RestoredResults` | crates/mc-core/src/chat.rs:69-133 | Restored, each result settles its own call when ids are distinct. |
| `ViewsAgree.RoundView` | crates/mc-agent/src/lib.rs:231-342 | From agreeing views a round keeps them agreeing exactly when it settles; otherwise it ends the turn with the views apart. |
| `ViewsAgree.TurnView` | crates/mc-agent/src/lib.rs:217-342 | One prompt leaves the chat as it will look when reopened if and only if the turn could start and settles. |
| `ViewsAgree.StoppedIsUnsettled` | crates/mc-agent/src/lib.rs:448-562 | A concrete unsettled round: some text is shown, then the user stops the response. |
| `ViewsAgree.SetupFailureView` | crates/mc-agent/src/worker.rs:60-140 | A prompt whose turn could not be set up shows live but never in the restored chat. |
| `ViewsAgree.ConversationView` | crates/mc-agent/src/lib.rs:217-342 | Over every uncompacted conversation the two views agree at every moment between turns if and only if every turn settled. |
| `ViewsAgree.FreshAgrees` | crates/mc-core/src/chat.rs:69-133 | A new chat starts with agreeing views, and so does a reopened one with no call left open. |
| `GuestPath.Normalize` | crates/mc-core/src/files.rs:49-62 | The push-and-pop loop equals the specification on every string. |
| `GuestPath.Parent` | crates/mc-core/src/files.rs:68-75 | The parent is the path without its last name, and missing exactly at the root. |
| `GuestPath.Join` | crates/mc-core/src/files.rs:61-63 | Entering a named child adds that name. |
| `GuestPath.NamesAreClean` | crates/mc-core/src/files.rs:45-62 | A normalised path has no empty, `.`, `..` or slash-bearing segment. |
| `GuestPath.NormalizeIdempotent` | crates/mc-core/src/files.rs:49-62 | Normalising twice is normalising once; two paths normalise alike exactly when they name the same steps. |
| `GuestPath.EachSegment` | crates/mc-core/src/files.rs:49-62 | What each segment does, wherever it stands: a name goes down, `..` up and no further than the root, `.` and nothing stay. |
| `GuestPath.DetoursCancel` | crates/mc-core/src/files.rs:49-62 | A detour down and up again, a `.` or a doubled slash changes nothing that comes after. |
| `GuestPath.ParentUndoesJoin` | crates/mc-core/src/files.rs:64-75 | Entering a child and going up is where one started. |
| `SymlinkResolver.RootedFs.Resolve` | crates/mc-sandbox/src/fs.rs:43-104 | The work-stack loop ends, equals the recursive walk in a changed root on every tree and path, errors included, and its last check never fails. |
| `SymlinkResolver.LinkExpands` | crates/mc-sandbox/src/fs.rs:64-93 | Pushing a link's target on the stack is resolving the link completely first. |
| `SymlinkResolver.WhereLinksLead` | crates/mc-sandbox/src/fs.rs:64-93 | A relative target is walked from the directory its link is in, an absolute one from the root, and one that begins with the root's own host path only below it; each costs one hop. |
| `SymlinkResolver.OtherSteps` | crates/mc-sandbox/src/fs.rs:54-63 | `..` goes one directory up and stays at the root; a name that is there is entered. |
| `SymlinkResolver.ComponentsAre` | crates/mc-sandbox/src/fs.rs:79-93 | The components of a target are what lies between its slashes, save for nothing and `.`. |
| `SymlinkResolver.MissingIsNamed` | crates/mc-sandbox/src/fs.rs:95-104 | A path that is not there is reported at the first missing thing: everything above it is there, without links. |
| `SymlinkResolver.UnreadableIsReported` | crates/mc-sandbox/src/fs.rs:64-71 | A link that cannot be read is reported with its reason. |
| `SymlinkResolver.FortyLinks` | crates/mc-sandbox/src/fs.rs:64-69 | A chain of links resolves exactly when it has at most forty. |
| `SymlinkResolver.ResolvedIsInside` | crates/mc-sandbox/src/fs.rs:43-104 | A resolved path lies under the root, is spelled with plain names, and neither it nor any directory above it within the root is a link. |
| `SymlinkResolver.ResolveIdempotent` | crates/mc-sandbox/src/fs.rs:43-110 | A resolved path, printed as a guest path, resolves to itself. |
| `SymlinkResolver.MoreHops` | crates/mc-sandbox/src/fs.rs:64-69 | The hop bound only ever turns an answer into "too many links". |
| `SymlinkResolver.HostLinksLeadInside` | crates/mc-sandbox/src/fs.rs:72-76 | A host path back into the root leads where the guest path below the root leads. |
| `Utf8.ValidIffText` | crates/mc-sandbox/src/jobs.rs:271-287 | The decoder's notion of valid is the grammar's: a sequence of well-formed characters. |
| `Utf8.CharIffScalar` | crates/mc-sandbox/src/jobs.rs:271-287 | The characters of the grammar are exactly the encodings of the Unicode scalars, each once. |
| `Utf8.CutAnywhere` | crates/mc-sandbox/src/jobs.rs:259-295 | However valid text is cut, the undecoded rest is a proper prefix of one character and what follows completes it. |
| `JobOutput.Pump` | crates/mc-sandbox/src/jobs.rs:259-295 | The pump loop appends to the log exactly the decoded pushes, each whole characters. |
| `JobOutput.PushesAreWhole` | crates/mc-sandbox/src/jobs.rs:271-292 | Whatever the bytes, every push is non-empty and whole characters. |
| `JobOutput.NothingDiscarded` | crates/mc-sandbox/src/jobs.rs:280-287 | On a valid stream what is carried is always an unfinished character of at most three bytes, so the discard never fires. |
| `JobOutput.PumpDelivers` | crates/mc-sandbox/src/jobs.rs:259-295 | On a valid stream, however cut into reads, the pushes together are the stream. |
| `JobOutput.PumpFaithfulIff` | crates/mc-sandbox/src/jobs.rs:259-295 | The pushes are exactly the stream if and only if the stream is valid UTF-8. |
| `JobOutput.OneRead` | crates/mc-sandbox/src/jobs.rs:271-292 | Whatever the bytes, a read pushes the longest part that is text and keeps at most four bytes, dropping more than that. |
| `JobOutput.ReadsUntilEnd` | crates/mc-sandbox/src/jobs.rs:265-270 | A stream ends at its first empty read. |
| `JobOutput.Buffer.Push` | crates/mc-sandbox/src/jobs.rs:131-145 | The buffer stays the end of the log, bounded, cut at a character, with the cursor where it belongs. |
| `JobOutput.Buffer.TakeUnread` | crates/mc-sandbox/src/jobs.rs:147-151 | Returns the log from the last read, or from where dropping ended if later. |
| `JobOutput.TrimKeeps` | crates/mc-sandbox/src/jobs.rs:136-144 | Trimming keeps at least all but three bytes of the limit, and valid text. |
| `JobOutput.RunReadsLog` | crates/mc-sandbox/src/jobs.rs:130-156 | Over every run of pushes and reads the buffer refines the log, and reads return disjoint in-order slices with gaps only where bytes were dropped unread. |
| `JobRegistry.RunIsOnward` | crates/mc-sandbox/src/jobs.rs:298-330 | In every interleaving a status leaves Running at most once and a finish time is set at most once. |
| `JobRegistry.RunningStaysListed` | crates/mc-sandbox/src/jobs.rs:298-368 | In every interleaving a running job is listed, and a thread past the status step finds its job ended. |
| `JobRegistry.ForgottenAreOld` | crates/mc-sandbox/src/jobs.rs:354-368 | A prune that races with endings still leaves sixteen finished jobs that ended no earlier than any it forgets. |
| `JobEndings.KillEnds` | crates/mc-sandbox/src/jobs.rs:298-330 | Whatever races with it, once a kill has returned its job is not running. |
| `JobEndings.KillMarks` | crates/mc-sandbox/src/jobs.rs:298-330 | A kill of a running job marks it killed, unless another thread records its end first. |
| `JobEndings.StatusHasCause` | crates/mc-sandbox/src/jobs.rs:298-330 | In every run a job that is not running ended as it was going to, or was killed by someone who asked. |
| `JobEndings.FinishTimeIsTheClock` | crates/mc-sandbox/src/jobs.rs:298-310 | A finish time is the clock at some moment of the run that set it. |
| `JobEndings.FirstEndedIsOlder` | crates/mc-sandbox/src/jobs.rs:298-310 | Of two jobs the one found ended first never has the later time. |
| `JobRegistry.QuietRegistryIsSmall` | crates/mc-sandbox/src/jobs.rs:298-368 | Whenever no thread is between its stamp and the end of its prune, at most sixteen finished jobs are listed. |
| `JobRegistry.Registry.Prune` | crates/mc-sandbox/src/jobs.rs:354-368 | The in-place prune removes exactly the oldest finished jobs beyond the limit. |
| `JobRegistry.PruneLeavesLatest` | crates/mc-sandbox/src/jobs.rs:354-368 | After an undisturbed prune exactly the latest finished jobs are left, and every other job. |
| `JobRegistry.UndisturbedPrune` | crates/mc-sandbox/src/jobs.rs:354-368 | A stepwise prune that no other thread interrupts, with its probes and stamp reads in any order the map yields, does to the listed jobs exactly what the in-place prune does. |
| `RootfsInstaller.ReadyWasInstalled` | crates/mc-sandbox/src/rootfs.rs:123-180 | In every run of launches and crashes a ready directory is what the last installation made of an archive with the pinned checksum, every entry tried. |
| `RootfsInstaller.BuiltIsWholeIff` | crates/mc-sandbox/src/rootfs.rs:283-308 | What an installation builds is the whole archive if and only if nothing foreign was left in the scratch directory and the last entry of every path came out right. |
| `RootfsInstaller.ReadyIsComplete` | crates/mc-sandbox/src/rootfs.rs:123-232 | In every run a ready directory is the complete unpacking of its pinned archive if and only if the installation that made it meets that condition. |
| `RootfsInstaller.FaithfulRunIsComplete` | crates/mc-sandbox/src/rootfs.rs:123-232 | In particular it is complete when no entry was ever passed over and the scratch directory was always cleared. |
| `RootfsInstaller.PassedOverLooksReady` | crates/mc-sandbox/src/rootfs.rs:283-308 | The condition can fail: an entry passed over leaves a directory that every later launch takes for complete. |
| `RootfsInstaller.LeftOverLooksReady` | crates/mc-sandbox/src/rootfs.rs:148-152 | So does a scratch directory of an earlier version that could not be cleared. |
| `RootfsInstaller.Installer.DownloadResumable` | crates/mc-sandbox/src/rootfs.rs:182-232 | The chunk loop is a run of the modelled effects; on success the archive is the kept part and all chunks, and the count is its size. |
| `RootfsInstaller.Installer.Extract` | crates/mc-sandbox/src/rootfs.rs:283-308 | The entry loop tries every entry once, in order, recording each outcome. |
| `RootfsInstaller.Installer.Ensure` | crates/mc-sandbox/src/rootfs.rs:123-165 | A whole launch, whatever fails in it, is a run of the modelled effects. It succeeds exactly when the directory was ready or nothing on the way fails, and then the directory is what unpacking the downloaded archive made of the scratch directory, and the marker. A bad archive is dropped. A failed launch leaves it ready only when the marker's file would not open and the directory, as put in place, already held the right marker. |
| `RootfsInstaller.MarkerSaysWhat` | crates/mc-sandbox/src/rootfs.rs:167-180 | Two pins have the same marker exactly when source and checksum agree. |
| `RootfsInstaller.OtherPinIsNotReady` | crates/mc-sandbox/src/rootfs.rs:167-180 | A directory installed from one source is never ready for another. |
| `RootfsInstaller.PinnedIff` | crates/mc-sandbox/src/rootfs.rs:130-145 | An archive is accepted exactly when there is no checksum or its own agrees but for the case of letters. |
| `CancelProtocol.NoLostWakeup` | crates/mc-core/src/cancel.rs:33-63 | In every interleaving, if the flag is set and a waiter sleeps un-notified, some canceller is between its store and its notification. |
| `CancelProtocol.CompletedIsCancelled` | crates/mc-core/src/cancel.rs:33-63 | In a reachable state with the flag set and no cancel or reset in progress, every sleeping waiter has been notified. |
| `CancelProtocol.WaitersReturn` | crates/mc-core/src/cancel.rs:33-63 | From such a state on, in every run without a reset, later cancels and waiters included, no waiter is blocked and each returns after at most two steps of its own. |
| `CancelProtocol.ReturnsOnlyCancelled` | crates/mc-core/src/cancel.rs:50-63 | In every run a waiter that returned did so in a step of its own at which some canceller's store was in effect, with no reset since. |
| `GlyphContainer.ParseColrContainer` | patches/rio-vt/src/ansi/glyph_protocol.rs:416-450 | The cursor loop equals the specification on every byte string. |
| `GlyphContainer.Cursor.U16Be` | patches/rio-vt/src/ansi/glyph_protocol.rs:469-477 | Reads two bytes big-endian and moves past them, or leaves the position alone. |
| `GlyphContainer.Cursor.Slice` | patches/rio-vt/src/ansi/glyph_protocol.rs:478-486 | Reads as many bytes as asked and moves past them, or leaves the position alone. |
| `GlyphContainer.ParseEncoded` | patches/rio-vt/src/ansi/glyph_protocol.rs:112-124 | Parsing an encoded container returns it. |
| `GlyphContainer.EncodeParsed` | patches/rio-vt/src/ansi/glyph_protocol.rs:416-450 | An accepted byte string is the encoding of what was returned, down to its last byte. |
| `GlyphContainer.AcceptedIff` | patches/rio-vt/src/ansi/glyph_protocol.rs:416-450 | A byte string is accepted if and only if it encodes a container, and it encodes only one. |
| `GlyphContainer.OneGlyphLayout` | patches/rio-vt/src/ansi/glyph_protocol.rs:112-124 | The layout, byte by byte: every length and count with its high byte first, the glyph, then the two tables. |
| `GlyphContainer.ParseHexCp` | patches/rio-vt/src/ansi/glyph_protocol.rs:529-548 | The digit loop equals the specification on every byte string. |
| `GlyphContainer.HexRoundTrip` | patches/rio-vt/src/ansi/glyph_protocol.rs:529-548 | Parsing inverts lowercase printing on every Unicode scalar and rejects every other printed number of up to six digits. |
| `GlyphContainer.CaseIgnored` | patches/rio-vt/src/ansi/glyph_protocol.rs:529-548 | Capital digits mean the same as small ones. |
| `GlyphContainer.BlanksIgnored` | patches/rio-vt/src/ansi/glyph_protocol.rs:529-548 | Blanks around the digits do not matter; anything else that is not a digit, or a seventh digit, makes the whole unreadable. |
| `GlyphContainer.LeadingZero` | patches/rio-vt/src/ansi/glyph_protocol.rs:529-548 | Leading zeros do not matter, up to six digits. |
| `ShellQuote.QuotedReads` | crates/mc-github/src/git.rs:123-125 | A quoted argument reads as itself and leaves the rest alone, whatever it contains. |
| `ShellQuote.QuotedListReads` | crates/mc-github/src/git.rs:91-95 | The space-joined quoted words of any list read back as exactly that list. |
| `ShellQuote.GitCommandReads` | crates/mc-github/src/git.rs:80-95 | The command a git call becomes reads as entering the directory, then git with its settings and exactly the given arguments. |
| `ShellQuote.QuotingIsInjective` | crates/mc-github/src/git.rs:91-95 | Two argument lists are never written the same way. |

## Left out

- `AtlasRegion`: floating-point overlay geometry and display sizes; f32 and f64 have no faithful model here.
- `TerminalGraphics`: the internal placement counter, the `dirty` flag and what the renderer does with the queues.
- `TerminalGraphics.Graphics.InsertImage`: takes the grid's used ids and the clipped placements as inputs; the grid itself is not modelled.
- `GraphicsStore`: an atlas placement is its texture key there; its geometry is in `AtlasRegion`.
- `KittyImage`: PNG, zlib, files and shared memory are a `Codec` parameter; base64 payloads are already decoded.
- `KittyUpload.KittyGraphicsState.Parse`: the capacity hint `size` has no effect on the result and is not modelled.
- `KittyUpload`: the control-data parser and the wording of replies.
- `Agent`: request bodies, headers and the system prompt; a summary is an input, so what is sent to be summarised is not modelled. Back-off delays are not modelled; a stop during one is a stop at the start of the next attempt.
- `Agent`: the tools themselves; a call's outcome is an input.
- `Chat`: notices are data, not sentences; rendering a JSON value to one line is a parameter.
- `ViewsAgree.ConversationView`: requires the stream order the API documents (blocks opened in order, text empty at first and before tool calls, ids distinct within a message) and a conversation without compaction, which drops turns from the restored view only.
- `ViewsAgree.ConversationView`: covers prompts within one chat; opening another chat replaces both views, which is the starting point of `ViewsAgree.FreshAgrees`.
- `SymlinkResolver`: the file tree does not change while a path is resolved, names are text, and listing and previewing files are not modelled.
- `JobOutput`: a poisoned lock and the reader's error both end a stream or skip a push in the source; only the end of a stream is modelled.
- `JobRegistry`: process groups and signals; ages and descriptions.
- `JobRegistry`: the running count published for the user interface.
- `RootfsInstaller`: tar, gzip and SHA-256 are parameters, file modes and directories inside a tree are not modelled, and nothing else changes the installed directory.
- `CancelProtocol`: a reset that overtakes a notified waiter sends it back to sleep, as in the source; nothing is claimed about that.
- `GlyphContainer`: the parameter parser, the reply formatters and the OpenType tables inside a container.
- `ShellQuote`: expansion, reserved words and redirection never arise, because the token reader gives up on every unquoted special character; status parsing and the other git commands.
- The user interface, the Android bridges, the pseudo-terminal, the proxy, the GitHub client and TLS setup: foreign calls and I/O.
- Selection, markdown and width tables: they rest on code that is not part of this model.
