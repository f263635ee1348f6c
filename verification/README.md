# Verified models of StremThru's core algorithms

StremThru is mostly HTTP clients and SQL, but a handful of its algorithms carry real invariants. This project
models those algorithms in Dafny and proves what they are for. Strings are sequences of characters, SQL tables are
maps from conflict key to row, and everything Go leaves open (map iteration order, completion order of workers,
failing calls, the clock) is either a free choice inside a method or a parameter of the statement.

`dafny verify dfyconfig.toml` checks everything.

| files | what they model |
|---|---|
| `LZBits`, `LZCompressor`, `LZDecoder`, `LZRoundTrip`, `LZOutcomes` | the lz-string decompressor, against the reference compressor of pieroxy's lz-string |
| `OAuthProtocol`, `OAuthLockLeak`, `OAuthTokenSource`, `OAuthRefreshTokens`, `OAuthOldToken`, `AdvisoryLock` | token refresh by any number of nodes over one database row under a Postgres advisory lock |
| `EpisodeCodec`, `EpisodeParts`, `EpisodeCoverage`, `EpisodeGroups` | mapping of anime episodes to TV episodes: text columns, splitting of a season into parts, lookup, grouping |
| `TorrentStream`, `TorrentStreamItems`, `TorrentInfo`, `TorrentInfoItems`, `IdMap`, `IdMapTable`, `Titles`, `TitleRows` | row-merging tables: what a row holds after any history of writes, and the statements that feed them |
| `TunnelMap`, `PageFill`, `PageOrder` | fast forms that must agree with simple ones: the caching proxy lookup, the parallel page fill |
| `ProxyLink`, `Torznab` | printer/parser pairs: proxy link tokens, Torznab queries |
| `GoStrings`, `MapTexts`, `Histories`, `Options` | the Go string functions used above, map printing in any order, first and last element with a property |

## What was found

Statements one might expect of the code that hold only under a condition; the condition is proved to be exact.

* lz-string: a text survives compression and decompression exactly when it has no surrogate code units (Go turns
  each into U+FFFD). Of the non-empty beginnings of a compressed text exactly the proper ones make the decoder panic;
  the error the code has for a text that ends early (`internal/lzstring/lz.go:117`) is never returned for them.
* Token refresh: the lock can be freed without a crash of its holder exactly while the holder is inside the lock. When
  the unlock fails, the session keeps the lock although nobody is inside, and until that node crashes no node
  refreshes the token again (`internal/oauth/token_source.go:46` drops the answer of Release).
* Token refresh: with a provider that rotates refresh tokens, a node presents the refresh token of the row it has just
  re-read exactly when that row comes from its own last refresh. The token source is built from the token given at
  construction (`internal/oauth/token_source.go:108-116`), so after another node's refresh an old one is presented.
* A proxy link token that has expired is still answered exactly when its entry is in the cache.
* Episode text columns: `Scan` after `Value` loses exactly the entries with a negative key, and for the `map` column
  also those with an empty list.
* A TV season split among several anime is covered without overlap exactly when every offset is larger than the one
  before it, or smaller than it without that one being above the first offset. In every other case some episode
  belongs to two parts.
* `GetByAnidbEpisode` and the episode lookup disagree on a numbered TV season that has only one part (its map has
  neither start nor end and is never found), and on a part whose successor has a smaller offset. Maps of TV season 0
  and of absolute order are never found at all (`internal/anidb/tvdb_episode_map.db.go:293`), though nearly all of
  them have TV episodes: the exact condition covers them too.
* The order in which the pages of a TMDB list arrive can be seen in the list exactly when two pages of one chunk of
  workers write different entries to a slot that no later chunk overwrites. By the lengths of the pages alone: it can
  be seen for some contents exactly when a page is so long that it runs into a non-empty page of its own chunk.
* `Record` sends a statement with too few arguments exactly when one of the paths has no leading slash; the callers
  in the repository filter those out.
* A proxy link token in plain form works exactly for users without ":"; in the signed forms exactly for links and
  headers that are single lines, with no ": " in a header's name.
* An IMDb id survives printing and parsing of a Torznab query exactly when it is empty or starts with a single "tt".

## Model

| member | source | states |
|---|---|---|
| LZDecoder.DataStruct.NextBit | internal/lzstring/lz.go:38-44 | one turn of the reading loop yields the next bit of the flattened six-bit stream and moves on by one; it indexes past the input exactly on the very last bit |
| LZDecoder.DataStruct.ReadBits | internal/lzstring/lz.go:34-51 | reading nb bits takes them off the flattened stream, least significant first; out of range exactly when fewer than nb + 1 bits are left |
| LZDecoder.DataStruct.AppendValue | internal/lzstring/lz.go:53-60 | the new dictionary, countdown and code width are those of the specification's append |
| LZDecoder.DataStruct.GetString | internal/lzstring/lz.go:62-83 | one code is decoded as the specification says: literal, end, known phrase, the phrase about to be entered, or an error; also the state left behind |
| LZDecoder.FirstCodeWellSized | internal/lzstring/lz.go:96-104 | on every input, after the first code dictionary length plus enlargeIn is 2^numBits with three bits |
| LZDecoder.TurnKeepsWellSized | internal/lzstring/lz.go:105-115 | every turn keeps that equation with enlargeIn at least 1, so a code equal to the dictionary length fits in numBits bits; a turn uses up at least numBits bits |
| LZDecoder.Turn | internal/lzstring/lz.go:105-115 | one turn of the loop decodes a phrase, enters the next dictionary phrase, and leaves the rest of the specified decoding to do |
| LZDecoder.DecodeLoop | internal/lzstring/lz.go:105-115 | the open loop ends on every input, computes the specified decoding, and takes at most a third as many turns as there are bits, rounded up |
| LZDecoder.DecompressFromEncodedUriComponent | internal/lzstring/lz.go:91-118 | the decompressor computes Decode, for every input, malformed ones included, within two turns per input character |
| LZDecoder.DecodeStreamExtends | internal/lzstring/lz.go:91-118 | unless the decoder runs off its input, more input does not change its result |
| LZBits.FromBitsToBits | internal/lzstring/lz.go:35-49 | a value written in n bits is read back if and only if it is below 2^n |
| LZBits.StreamOfPack | internal/lzstring/lz.go:10-14 | the characters written for a bit stream carry that stream followed by one to six bits of padding |
| LZRoundTrip.PhraseDecodes | internal/lzstring/lz.go:62-83 | whatever the compressor writes for a phrase is decoded as that phrase, including a code equal to the dictionary length; afterwards the decoder knows all phrases of the compressor |
| LZRoundTrip.StreamDecodes | internal/lzstring/lz.go:105-115 | from any point in step the rest of a compressed stream decodes to the rest of the text and stops at the end marker, or runs off the input if nothing follows the marker |
| LZRoundTrip.DecodeInvertsCompress | internal/lzstring/lz.go:91-118 | for every text, the empty one included: decoding its compressed form succeeds and gives the text with surrogates replaced |
| LZRoundTrip.RoundTrip | internal/lzstring/lz.go:91-118 | the text itself comes back if and only if it has no surrogate code unit |
| LZRoundTrip.TrailingInputIgnored | internal/lzstring/lz.go:105-109 | whatever follows a compressed text does not change the result |
| LZRoundTrip.TruncatedInputPanics | internal/lzstring/lz.go:42 | every compressed text of which some but not all characters at the end are missing makes the decoder index past its input |
| LZRoundTrip.PrefixPanicsWhen | internal/lzstring/lz.go:42 | a non-empty beginning of a compressed text makes the decoder panic if and only if it is a proper one |
| LZOutcomes.DecodeEndsBy | internal/lzstring/lz.go:62-118 | on every input: the empty one is an error of its own; otherwise success if and only if the end marker is read, a bad encoding if and only if a code larger than the dictionary is read, a panic if and only if the bits run out; the text returned is that written by then |
| LZOutcomes.OtherBytesAreA | internal/lzstring/lz.go:16-33 | a byte outside the 64 letters, "$" included, is read as "A", never as an error |
| OAuthProtocol.InvHolds | internal/oauth/token_source.go:35-81 | the invariant over every run of any number of nodes: who is inside holds the lock, a refreshing node has seen the current, still expired row, and versions and expiries count the saves |
| OAuthProtocol.OneRefresher | internal/oauth/token_source.go:41-79 | at most one node is between its stale re-read and its save |
| OAuthProtocol.SavesReplaceTheStaleRow | internal/oauth/token_source.go:60-79 | a save never overwrites a valid token or one stored since the saver's re-read |
| OAuthProtocol.OneSavePerExpiry | internal/oauth/db.go:207-224 | saves never outnumber expiries and never fall behind by more than one; the row version is the initial one plus the number of saves |
| OAuthLockLeak.HolderCanReleaseWhen | internal/oauth/token_source.go:46-58 | in every reachable state the lock can be freed without a crash of its holder if and only if the holder is inside the lock, that is, its unlock has not failed |
| OAuthLockLeak.LeakStays | internal/db/advisory_lock.go:153-162 | a lock whose unlock has failed stays held under every run in which its node does not crash; nobody gets inside and the stored token is not refreshed again |
| OAuthLockLeak.LeakIsReachable | internal/oauth/token_source.go:46 | one failing unlock reaches that state, from any valid stored token |
| OAuthTokenSource.Database.Save | internal/oauth/db.go:232-260 | an empty token deletes the row; the first save of a token starts at version 0; a later one of the same user stores exactly the token and raises the version by one; another user's row stays, with an error |
| OAuthTokenSource.TokenSource.RefreshUnderLock | internal/oauth/token_source.go:48-79 | with the lock held: when a token is returned (the row read is valid, or refresh, user lookup and save all succeed), which one, and the effect on the source's token and the stored row |
| OAuthTokenSource.TokenSource.Token | internal/oauth/token_source.go:35-81 | for whatever row and time it finds when the lock is granted: a token is returned if and only if the caller's own is valid, or lock and read succeed and the stored one is valid or is refreshed and stored; it is the own one, the stored one or the refreshed one in these cases; the lock is free afterwards unless the unlock failed |
| OAuthTokenSource.CallIsARun | internal/oauth/token_source.go:35-81 | a call, with any steps of the other nodes while it waits for the lock, is a run of the protocol with exactly the effect of the imperative Token on token, row and lock |
| OAuthTokenSource.ShortCallIsARun | internal/oauth/token_source.go:36-47 | a call answered from its own valid token, or failing to get the lock, leaves everything as it was |
| OAuthRefreshTokens.RowComesFromOrigin | internal/oauth/token_source.go:60-79 | over every run the stored token is the one issued in the saver's own last refresh |
| OAuthRefreshTokens.HoldsOwnStored | internal/oauth/token_source.go:62-66 | a node whose own last refresh was stored last holds the stored refresh token, whatever the provider does |
| OAuthRefreshTokens.PresentsStoredToken | internal/oauth/token_source.go:62-66 | with rotating refresh tokens a node about to refresh holds the refresh token of the row it re-read if and only if that row comes from its own last refresh |
| OAuthOldToken.OldTokenIsPresented | internal/oauth/token_source.go:101-117 | a run of two nodes in which an outdated refresh token is presented |
| AdvisoryLock.AlwaysBalanced | internal/db/advisory_lock.go:106-185 | after every sequence of operations, failures anywhere: the object's count is the depth held in the database, and the connection was handed back at most once and never while holding the lock |
| AdvisoryLock.ReleasesEffect | internal/db/advisory_lock.go:148-185 | a round of releases succeeds exactly when no unlock fails, drops the depth accordingly and hands the connection back exactly at depth 0 |
| AdvisoryLock.ReleaseAllEffect | internal/db/advisory_lock.go:170-185 | from depth n > 0 it answers true exactly when it ends at depth 0, exactly when none of the n unlocks fails, with one commit |
| AdvisoryLock.AtMostOneHolder | internal/db/advisory_lock.go:122-168 | over every run of any number of lock objects on one name, each with its own session, at most one session holds the lock |
| AdvisoryLock.PostgresAdvisoryLock.Acquire | internal/db/advisory_lock.go:122-131 | yes exactly when the transaction is open and the statement succeeds; count and depth rise together exactly then, and the balance is kept |
| AdvisoryLock.PostgresAdvisoryLock.TryAcquire | internal/db/advisory_lock.go:133-146 | yes exactly when the transaction is open, the statement succeeds and no other session holds the lock; nothing changes otherwise |
| AdvisoryLock.PostgresAdvisoryLock.Release | internal/db/advisory_lock.go:148-168 | yes exactly when the lock is held and the unlock succeeds; count and depth drop together exactly then; the last release commits, and one without a lock answers no |
| AdvisoryLock.PostgresAdvisoryLock.ReleaseAll | internal/db/advisory_lock.go:170-185 | the loop over Release has the effect stated for all sessions in ReleaseAllEffect |
| EpisodeCodec.Value | internal/anidb/tvdb_episode_map.db.go:21-34 | for some order of the keys, the text is ";" and every entry followed by ";", and empty for an empty map |
| EpisodeCodec.BeforeScan | internal/anidb/tvdb_episode_map.db.go:36-62 | Scan adds every entry that parses to the map it is called on, later ones over earlier ones |
| EpisodeCodec.MapScan | internal/anidb/tvdb_episode_map.db.go:82-113 | the same for episode lists, whose numbers are appended in order |
| EpisodeCodec.BeforeRoundTrip | internal/anidb/tvdb_episode_map.db.go:21-62 | for every order, scanning what Value wrote gives the map without its negative keys; the map itself if and only if it has none |
| EpisodeCodec.MapRoundTrip | internal/anidb/tvdb_episode_map.db.go:67-113 | for every order, scanning what Value wrote gives the entries with a non-negative key and a non-empty list; the map itself if and only if all are such |
| EpisodeParts.PrepareAniDBTVDBEpisodeMaps | internal/animelists/dataset.go:126-226 | one map for each item whose offset and season are numbers where they have to be, with the item's ids, season, offset (0 if none is given) and special episodes; a start of 1 in absolute order or when another item has the same numbered season, and an end where the next such item begins |
| EpisodeParts.PrintedItems | internal/animelists/dataset.go:136-165 | items whose season is "a" or a printed number and whose offset is empty or a printed number all get a map, with these numbers |
| EpisodeParts.LinkPart | internal/animelists/dataset.go:194-206 | linking a part to the last part of its season gives both a start, closes the earlier one before the new offset if it was open, and changes nothing else |
| EpisodeParts.LinkKeepsTable | internal/animelists/dataset.go:194-206 | after the link every map is again the one its neighbours in the season define |
| EpisodeParts.ExpectedAppend | internal/animelists/dataset.go:190-206 | a new part changes only the map of its predecessor in the same numbered season, whose end was still open |
| EpisodeParts.PartKeyInjective | internal/animelists/dataset.go:188-198 | season and part number can be told apart from their joined key |
| EpisodeCoverage.NeighboursTile | internal/animelists/dataset.go:190-206 | in a numbered season the TV end of a part plus one is the TV start of the next part |
| EpisodeCoverage.YieldingCount | internal/anidb/tvdb_episode_map.db.go:159-173 | how many parts yield a TV episode: one, plus one for every ambiguous step between offsets |
| EpisodeCoverage.SeasonCoverage | internal/anidb/tvdb_episode_map.db.go:143-173 | every TV episode after the first offset is yielded by a part, and by exactly one if and only if the offsets are unambiguous, as strictly increasing ones are |
| EpisodeCoverage.YieldsWhen | internal/anidb/tvdb_episode_map.db.go:159-173 | which TV episodes a part yields, and that each comes from one anime episode |
| EpisodeCoverage.EpisodeOfPart | internal/anidb/tvdb_episode_map.db.go:158-172 | a part's episode is the TV episode its offset further on, in absolute order always, in a TV season until the next part of its season begins |
| EpisodeCoverage.EpisodesOfList | internal/anidb/tvdb_episode_map.db.go:158-162 | an episode listed in a printed target text is mapped to exactly its list, whatever the map says otherwise |
| EpisodeCoverage.GetByAnidbEpisode | internal/anidb/tvdb_episode_map.db.go:287-312 | the first map of a numbered season that covers the episode; none exactly when there is no such map |
| EpisodeCoverage.FoundWhen | internal/anidb/tvdb_episode_map.db.go:287-312 | a map is found for an episode exactly when its TV season is numbered, it has a bound, and the episode is outside none of its bounds |
| EpisodeCoverage.LookupsAgreeWhen | internal/anidb/tvdb_episode_map.db.go:287-312 | exactly when a map is found for the episodes it has a TV episode for: in a numbered TV season unless it has neither start nor end, or a start and a negative end; in any other only if it has no TV episode at all |
| EpisodeCoverage.PartLookupsAgreeWhen | internal/animelists/dataset.go:182-206 | for every part of every list of items: in a numbered TV season the two lookups agree if and only if there is another part and the next one does not start before this one; in TV season 0 or below only a part whose successor starts before it, and never one of absolute order |
| EpisodeGroups.EpisodeMapsResult.GroupByAniDBId | internal/anidb/tvdb_episode_map.db.go:454-493 | the groups concatenate to the input, are runs of one id with neighbours different, carry their part number, and are computed once |
| EpisodeGroups.EpisodeMapsResult.GetByAniDBId | internal/anidb/tvdb_episode_map.db.go:495-503 | the last group of an id; none exactly when no map has the id |
| EpisodeGroups.EpisodeMapsResult.HasJoinedTVSeasons | internal/anidb/tvdb_episode_map.db.go:506-514 | true exactly when two eligible groups share a TV season |
| EpisodeGroups.AnyLaterPart | internal/anidb/tvdb_episode_map.db.go:506-514 | the loop over the groups answers exactly that |
| EpisodeGroups.JoinedWhen | internal/anidb/tvdb_episode_map.db.go:466-483 | some part number exceeds one if and only if two eligible groups share a season |
| EpisodeGroups.PartIsRank | internal/anidb/tvdb_episode_map.db.go:463-481 | a group's part is its number among the groups of its TV season that count, from 1 on, and 0 when it does not count itself |
| EpisodeGroups.LookupIsFilter | internal/anidb/tvdb_episode_map.db.go:495-503 | the lookup returns all maps of an id, in order, if and only if they stand next to each other in the input |
| EpisodeGroups.SortedLookup | internal/anidb/tvdb_episode_map.db.go:268-285 | on input sorted by Sort with numeric ids each id has one group, which is the filter of the input by the id |
| EpisodeGroups.SortedGroup | internal/anidb/tvdb_episode_map.db.go:268-285 | inside a group of sorted input the maps are in order of TV season, AniDB season and start |
| TorrentStream.MergeKeeps | internal/torrent_stream/db.go:393-425 | a conflicting insert keeps a set sid, asid and video hash, and never lowers the authority of the source |
| TorrentStream.MergeTwice | internal/torrent_stream/db.go:393-425 | the same insert applied again changes nothing |
| TorrentStream.SourceOfHistory | internal/torrent_stream/db.go:417-423 | over every history: the source of the latest dht/tor insert, else of the latest that is neither weak, else of the first |
| TorrentStream.IdsOfHistory | internal/torrent_stream/db.go:405-416 | over every history: sid, asid and video hash are those of the first insert that has one |
| TorrentStream.SizeAndIndexOfHistory | internal/torrent_stream/db.go:393-404 | over every history: the first known size and index since the latest dht/tor insert, else since the first that is not weak, else of the latest |
| TorrentStream.IndexOfHistory | internal/torrent_stream/db.go:393-398 | if no insert outside dht/tor has an index, the stored index is that of the latest dht/tor insert, and a known index implies a dht/tor source |
| TorrentStream.DiscardingChunk | internal/torrent_stream/db.go:444-447 | with discardIdx a statement holds no index from a source other than dht and tor |
| TorrentStream.RunSettles | internal/torrent_stream/db.go:177-549 | over every run of all writers a row's index, size and source are those its own inserts since its last deletion give |
| TorrentStream.IndexOfRun | internal/torrent_stream/db.go:444-447 | over every run of all writers in which Record discards indexes, a known index implies a dht/tor source, and the index is that of the latest dht/tor row inserted |
| TorrentStreamItems.RunStores | internal/torrent_stream/db.go:437-466 | over every run of all writers, what is inserted under a key are the items passed to Record, chunk by chunk the first of the key, none of a chunk with a path that is not rooted, each with its own size, ids, source and video hash, "*" for a missing sid, and its index unless that is discarded |
| TorrentStreamItems.NewItemIsStored | internal/torrent_stream/db.go:428-480 | an item with a new key, all paths being rooted, is stored with exactly these columns |
| TorrentStreamItems.FirstItemIsStored | internal/torrent_stream/db.go:453-466 | of the items of one statement with the same new key the first is stored |
| TorrentStreamItems.SourceOfItems | internal/torrent_stream/db.go:410-418 | after every run of all writers the source is that of the latest dht/tor item, else of the latest other one that is neither empty nor mfn, else of the first |
| TorrentStreamItems.IndexOfItems | internal/torrent_stream/db.go:444-447 | when all calls of Record discard indexes, the index is that of the latest dht/tor item passed to Record for the key since the row was last deleted, and unknown without one |
| TorrentStreamItems.SizeOfItems | internal/torrent_stream/db.go:394-397 | after every run of all writers the size is the first known one from the settling item on |
| TorrentStreamItems.TrackedAre | internal/torrent_stream/db.go:355-371 | TrackFiles hands on exactly the files with a real path, of Premiumize only those of hashes with a video, each with its own columns |
| TorrentStreamItems.TagSets | internal/torrent_stream/db.go:485-548 | a tag sets the id of its row if that is still open, and changes nothing else |
| TorrentStreamItems.TagSkips | internal/torrent_stream/db.go:495-501 | a tag without a path does nothing, nor does one with a sid that does not start with "tt" |
| TorrentStreamItems.CleanupFills | internal/torrent_stream/db.go:177-242 | a cleanup fills the open ids of every row of its hash from the first file whose name it ends in; the name rows are gone if and only if the delete ran and a rooted row exists, and every other row stays |
| TorrentStream.HistoryKeeps | internal/torrent_stream/db.go:393-425 | whatever inserts follow, a row keeps its set ids and hash, and its rank does not fall |
| TorrentStream.InsertExtendsHistory | internal/torrent_stream/db.go:427-483 | after every multi-row insert each key holds the row its own history of inserts gives |
| TorrentStream.ArgumentsFit | internal/torrent_stream/db.go:433-472 | a statement has an argument for every placeholder if and only if all paths of the chunk have a leading slash |
| TorrentStream.KeysDiffer | internal/torrent_stream/db.go:433-458 | no conflict key occurs twice in a statement |
| TorrentStream.NoFileIsLost | internal/torrent_stream/db.go:433-458 | with hashes free of ":" every rooted file of a chunk has its key in the statement |
| TorrentStream.RootedIsStored | internal/torrent_stream/db.go:427-483 | with rooted paths every file handed to Record has a row afterwards, over all chunks |
| TorrentStream.TrackedIsStored | internal/torrent_stream/db.go:355-371 | every file TrackFiles does not filter out has a row afterwards, whatever order the hashes are walked in |
| TorrentStream.WriteKeeps | internal/torrent_stream/db.go:177-549 | every writer keeps set ids and hashes of the rows it leaves, and only cleanup removes rows |
| TorrentStream.CleanupSparesHashes | internal/torrent_stream/db.go:177-241 | cleanup deletes only rows of its hash whose path is a name, and never the last row of a hash |
| TorrentStream.RunKeeps | internal/torrent_stream/db.go:427-549 | over every history of writes by all writers: while a row exists its set sid, asid and hash do not change and the rank of its source does not fall |
| TorrentStream.Store.RecordOneChunk | internal/torrent_stream/db.go:433-480 | the loop with its counter and seen-set builds the specified statement; it succeeds exactly when all paths are rooted |
| TorrentStream.Store.RecordItems | internal/torrent_stream/db.go:427-483 | chunk by chunk the table becomes the specified one |
| TorrentStream.Store.TrackFiles | internal/torrent_stream/db.go:355-371 | for some order of the hashes, the table after recording the files that pass the filter |
| TorrentInfo.TitleOfHistory | internal/torrent_info/db.go:682-710 | over every history title and source come from one and the same upsert: the latest dht one, else the first from a settled source, else the latest that is not from ato, else the first |
| TorrentInfo.PeersOfHistory | internal/torrent_info/db.go:718-735 | once a dht upsert was applied, seeders and leechers are those of the latest one; leechers never change otherwise |
| TorrentInfo.SeedersWithoutDht | internal/torrent_info/db.go:718-726 | without a dht upsert, seeders are those of the latest upsert that reports any |
| TorrentInfo.SizeOfHistory | internal/torrent_info/db.go:690-696 | over every history: the first positive size since the latest dht upsert, else the latest size |
| TorrentInfo.LabelsOfHistory | internal/torrent_info/db.go:697-717 | the latest named indexer and the first named category |
| TorrentInfo.PrivateWithoutDht | internal/torrent_info/db.go:736-745 | without a dht upsert the torrent is private if and only if some upsert said so |
| TorrentInfo.PrivateSinceDht | internal/torrent_info/db.go:736-745 | after the first dht upsert the latest upsert from elsewhere decides, and before one comes the flag stays |
| TorrentInfo.SettledTitleStays | internal/torrent_info/db.go:682-689 | once the source is tio, ad, dl or rd, no upserts other than dht ones replace the title |
| TorrentInfo.HashesDiffer | internal/torrent_info/db.go:765-785 | no hash occurs twice in a statement |
| TorrentInfo.ChunkStreamsRooted | internal/torrent_info/db.go:765-835 | every file handed on to the stream table has a leading slash |
| TorrentInfo.BuildChunk | internal/torrent_info/db.go:757-835 | the loop's counter is the number of rows, there are nine arguments for each, hashes differ, and the files handed on are the specified ones |
| TorrentInfo.RunHasHistory | internal/torrent_info/db.go:757-835 | over every run of Upsert, statements failing anywhere, each hash has the row its applied items give |
| TorrentInfo.TitlesOfRun | internal/torrent_info/db.go:757-835 | in the table after any run title and source come from one applied item, and once a dht item was applied title, source, seeders and leechers are those of the latest one |
| TorrentInfo.Database.Upsert | internal/torrent_info/db.go:757-835 | chunk by chunk the table becomes the specified one, later chunks included when a statement fails, and all files are handed on |
| TorrentInfoItems.RunStores | internal/torrent_info/db.go:757-835 | over every run of Upsert, statements failing anywhere, what is applied to a hash are the items themselves, chunk by chunk the first of the hash if it is named, each with its own columns and the call's category if it has none |
| TorrentInfoItems.NewItemIsStored | internal/torrent_info/db.go:757-835 | a named item with a new hash is stored with exactly these columns when no statement fails |
| TorrentInfoItems.TitleOfItems | internal/torrent_info/db.go:680-735 | in the table after any run title and source are those of the latest dht item, else of the first from tio, ad, dl or rd, else of the latest not from ato, else of the first; with a dht item seeders and leechers are its own |
| TorrentInfoItems.LabelsOfItems | internal/torrent_info/db.go:697-717 | in the table after any run the indexer is the latest one named and the category the first one, an item without any counting with its call's |
| TorrentInfoItems.ArgsStandForRows | internal/torrent_info/db.go:817 | row by row the arguments of a statement are the columns of what is stored |
| TorrentInfoItems.ChunkStreamsAre | internal/torrent_info/db.go:765-806 | the files handed on are exactly the rooted ones, without Debrider's archives, of the first item of each proper hash, of Premiumize only with a video among them; each with the torrent's hash and, if it has none, its source |
| IdMap.PersistMeansTwoIds | internal/anime/id_map.db.go:57-84 | an item is persisted if and only if two different anchor columns have an id |
| IdMap.AnchorIsSent | internal/anime/id_map.db.go:504-540 | an anchor value is in the statement if and only if the first item with it is worth a row; later items make no difference |
| IdMap.RowsDiffer | internal/anime/id_map.db.go:504-540 | every row of a statement has an anchor id, which is not "0", and no two have the same |
| IdMap.BuildStatement | internal/anime/id_map.db.go:504-563 | the loop's counter is the number of rows, with seventeen arguments for each |
| IdMap.IdsOfHistory | internal/anime/id_map.db.go:445-472 | over every history of writes that reached the row, every id column holds the first id given for it, the anchor columns included |
| IdMap.RestOfHistory | internal/anime/id_map.db.go:445-472 | the type is the first that is not empty and not from an update by key, and each season the first that is not zero |
| IdMapTable.RunKeeps | internal/anime/id_map.db.go:661-800 | over every run of BulkRecordIdMaps, with retries on another anchor and item-by-item fallbacks, every row of every table is the outcome of a list of items of the calls, only ever extended by items of later calls: a column has an id if and only if one of them gives one (neither empty nor "0"), and it is the first one's; likewise the type and the seasons; no row is lost |
| IdMapTable.StatementHolds | internal/anime/id_map.db.go:504-563 | after a bulk statement each of its items has a row with its anchor id and with an id in every column in which it has one |
| IdMapTable.ArgsStandForRows | internal/anime/id_map.db.go:531-555 | row by row the seventeen arguments of a statement are the columns of what is stored |
| IdMapTable.KnownItemCompletes | internal/anime/id_map.db.go:445-472 | an item whose anchor id is in the table completes the one row that has it: ids, type and seasons only where there were none; it is never inserted next to it |
| IdMapTable.NewItemIsInserted | internal/anime/id_map.db.go:504-580 | an item whose anchor id is new gets a row of its own, exactly when the unique indexes allow that |
| IdMapTable.FallbackSkips | internal/anime/id_map.db.go:690-755 | the fallback skips an item without any anchor id |
| IdMapTable.FallbackCompletes | internal/anime/id_map.db.go:690-813 | an item that some row knows completes such a row, without inserting and without touching the type |
| IdMapTable.IdsOfRun | internal/anime/id_map.db.go:661-800 | an id, once a row has it, never changes or disappears, and, by the unique indexes, in an anchor column no other row ever has it |
| IdMapTable.IdsAreGiven | internal/anime/id_map.db.go:661-800 | every id of every row was given, in its column, by an item of some call |
| Titles.EnglishIsBest | internal/anidb/title_dataset.go:139-153 | the English title is the last official one, else the earliest of the longest English synonyms |
| Titles.ChosenAre | internal/anidb/title_dataset.go:134-191 | the switch ends with the last main title, the English title, and the last romaji and pinyin synonyms that name a season |
| Titles.ChosenYear | internal/anidb/title_dataset.go:155-159 | the year is that of the first title that names one |
| Titles.CountsAreVotes | internal/anidb/title_dataset.go:161-174 | the season counts are the numbers of titles, short ones apart, that name each season |
| Titles.DetectSeason | internal/anidb/title_dataset.go:54-67 | for every order in which the counts are walked, the season is one that most titles name, and "1" when none is named |
| Titles.AnimeRowsApart | internal/anidb/title_dataset.go:196-224 | all rows built for one anime, renamed and cleaned ones included, differ in type or language |
| Titles.NoTitleIsLost | internal/anidb/title_dataset.go:196-208 | every title of a stored type has a row with its language, value and, on repetition, numbered type |
| Titles.BatchKeysDiffer | internal/anidb/title.db.go:120-125 | no conflict key occurs twice in a batch of different anime |
| Titles.BuildRows | internal/anidb/title_dataset.go:115-231 | the loops build exactly these rows, all with the season and year of the anime, and rename exactly the repeated titles in place |
| TitleRows.TitleHasRow | internal/anidb/title_dataset.go:196-208 | each main, official and syn title has a row with its language and value; if its type and language occurred before, its type has "-alt-" and the number of repetitions so far behind it |
| TitleRows.RowsAreTitles | internal/anidb/title_dataset.go:192-208 | apart from the cleaned copies there are no other rows |
| TitleRows.CopiesAre | internal/anidb/title_dataset.go:209-224 | the cleaned copies are those of the last main title, of the last official English title or else the earliest longest English synonym, and of the last x-jat and x-zht synonyms that name a season, in this order |
| TitleRows.SeasonIsMostNamed | internal/anidb/title_dataset.go:54-67 | the season is one that no other is named more often than, short titles apart, counting seasons of at most two digits without a leading zero; "1" when none is named |
| TitleRows.YearIsFirstNamed | internal/anidb/title_dataset.go:155-159 | the year is that of the first title that names one |
| TunnelMap.LookupIsLongestSuffix | internal/config/http.go:41-57 | the search answers with the longest label suffix of the host that the map has; none exactly when it has none |
| TunnelMap.CachingIsInvisible | internal/config/http.go:45-47 | writing an answer into the map changes no answer for any host |
| TunnelMap.Tunnels.GetProxy | internal/config/http.go:41-57 | the loop ends, answers as the search of the map it started with, and adds at most that answer |
| TunnelMap.Tunnels.GetAll | internal/config/http.go:41-57 | after any sequence of calls every answer is that of the original map |
| PageFill.HoldsMore | internal/tmdb/list.go:436-447 | writing one more page, whichever it is, adds it and disturbs no other |
| PageFill.FetchChunk | internal/tmdb/list.go:429-452 | for every server the chunk ends the same way in every order, and the slots are what its pages leave when written in the order they finished in |
| PageFill.Fetch | internal/tmdb/list.go:405-457 | for every server: the first chunk with a page past the end panics, the first with a failed page fails, else the list is what the pages leave in some completion order; when no page is longer than the first that is the padded pages in order, cut off at 25 |
| PageFill.VerdictWhen | internal/tmdb/list.go:426-452 | all chunks end well exactly when every page is fetched and fits into the list; the fetch panics exactly when a page runs past the list and all pages of the chunks before it are fine |
| PageFill.LandHolds | internal/tmdb/list.go:436-447 | when no page is longer than the first, further pages written in any order are added and disturb no other |
| PageFill.FetchedEntries | internal/tmdb/db_sync.go:104-115 | dropping the empty slots and the entries without a media type leaves the others of the pages' entries in order, with strictly increasing numbers, each the number of its slot |
| PageFill.DropEmpty | internal/tmdb/db_sync.go:104-146 | the filtering loop keeps exactly the filled slots with a media type, with their numbers |
| PageOrder.LandAt | internal/tmdb/list.go:436-447 | a slot holds the entry of the last page written over it |
| PageOrder.OrderUnseenWhen | internal/tmdb/list.go:426-452 | all completion orders give the same list if and only if the pages agree on every slot that two pages of one chunk write and no later chunk does |
| PageOrder.OrderUnseenByLength | internal/tmdb/list.go:426-452 | for all contents of pages of given lengths the order cannot be seen if and only if no page runs into a non-empty one of its own chunk |
| ProxyLink.Create | internal/shared/store.go:128-184 | the token carries the blob of link and headers for some order of the header map; plain exactly when neither encrypted nor expiring |
| ProxyLink.BlobRoundTrip | internal/shared/store.go:142-147 | for every header order the blob gives link and headers back if and only if they are single lines without ": " in a header's name |
| ProxyLink.TokenRoundTrip | internal/shared/store.go:243-317 | unwrapping a created token gives all its data back if and only if: for the plain form, the user has no ":"; for the others, the blob survives |
| ProxyLink.TokenOutcome | internal/shared/store.go:243-317 | what becomes of a created token whatever the passwords are later and whenever it is unwrapped: its data, or rejected for a changed password, or expired from its expiry on |
| ProxyLink.RejectedWhen | internal/shared/store.go:243-317 | nothing is answered for a token with another password than the user's, one encrypted with another key, or an expired one |
| ProxyLink.Unwrapper.Unwrap | internal/shared/store.go:243-317 | answered from the cache or not, an answer is what decoding the token gives, and while the token is valid the outcome is the same as without a cache; a cached token is answered also after its expiry, and one that decoding rejects if and only if it is cached |
| Torznab.ToValues | internal/torznab/query.go:47-127 | under each of the seventeen keys, those not read back included, exactly its printed value, and no other key |
| Torznab.ParseQuery | internal/torznab/query.go:137-227 | the loop over the keys in some order gives what parsing along that order gives, and fails only over a value that is not accepted |
| Torznab.AcceptedWhen | internal/torznab/query.go:137-227 | q may be repeated, cat too with lists of integers; every other parameter may be given once, year, ep, season, limit and offset as an integer; nothing else is accepted |
| Torznab.NamedInAnyCase | internal/torznab/query.go:140 | a key is read as a parameter exactly when it is its name in any mix of cases |
| Torznab.ParseDescribes | internal/torznab/query.go:137-227 | parsing along an order gives the query its parameters describe as a set |
| Torznab.OrderDoesNotMatter | internal/torznab/query.go:137-227 | with keys distinct up to case neither success nor the query depends on the order |
| Torznab.CategoriesReadBack | internal/torznab/query.go:229-238 | every list of categories is read back from its printed form |
| Torznab.QueryRoundTrip | internal/torznab/query.go:47-227 | parsing what was printed fails exactly when ep or season is neither empty nor an integer; otherwise it gives type ("search" for none), q, year, ep, season, apikey, limit, offset and categories back, and the id with "tt" |
| Torznab.ImdbIdRoundTrip | internal/torznab/query.go:216-223 | the IMDb id comes back unchanged if and only if it is empty or starts with "tt" but not with "tttt" |

## Left out

- PrepareAniDBTVDBEpisodeMaps with mapping lists (internal/animelists/dataset.go:226-328): items carry none in the model.
- Arithmetic on episode numbers, offsets and sums is on unbounded integers; parsing of numbers does check the 64-bit range.
- Text is a sequence of characters, not of UTF-8 bytes; lz-string surrogates are modelled exactly as U+FFFD. `math.Pow` and the float64 countdown of the decoder are exact integers.
- The SQLite advisory lock: its lock() always ends up true (internal/db/advisory_lock.go:40-47) and excludes nobody, so the refresh statements are about the Postgres lock.
- The refresh protocol has one token row: other writers of oauth_token (the code exchanges), a connection lost while its node keeps running, and a save that lands on another user's row are not modelled. A failing SQL statement is taken to have no effect; a failing unlock keeps the lock.
- OAuthRefreshTokens.PresentsStoredToken: golang.org/x/oauth2 is not part of this model; its token source is taken to hold what it was built with or last issued, and to be asked for a new token on every refresh.
- SQL execution, transactions and retries; a table is a map and an ON CONFLICT clause a merge function. LIKE in the cleanup is an arbitrary predicate on paths.
- IdMapTable.RunKeeps: which anchor column the retry uses is left open, where the code takes it from the text of the database's error. The unique indexes themselves are the database's guarantee: a statement that would violate one is taken to fail.
- Regular expressions: the season and year they find in a title, and what they leave of it, are parameters.
- JSON, base64, JWT and the cipher are taken as exact inverses under the right key; a token stands for its decoded content. Cache lifetimes are a flag that drops an entry.
- Torznab keys are compared up to ASCII case; a key with an empty list of values (on which the code panics) does not occur.
- The order in which Go sorts: Sort is taken by its comparison function only.
- Data races on Go maps, mutexes, wall-clock jitter, HTTP handlers, API clients, dashboards and configuration printing.
