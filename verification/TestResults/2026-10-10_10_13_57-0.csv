TestResult.DisplayName,TestResult.Outcome,TestResult.Duration,TestResult.ResourceCount,RandomSeed
Pipeline.RunSession (correctness),Passed,00:00:00.5450254,400007,0
Pipeline.RunSession (well-formedness),Passed,00:00:00.5206837,218090,0
Markers.MmmListings (correctness),Passed,00:00:00.4935992,817487,0
Markers.HmmListings (correctness),Passed,00:00:00.4403522,815415,0
Hesitations.DuplicatesReportedPerListing (correctness),Passed,00:00:00.3926072,824666,0
DetectionExamples.NoMatchInsideWord (correctness),Passed,00:00:00.3742082,402463,0
DetectionExamples.PhraseMatchesInMixedCase (correctness),Passed,00:00:00.3658663,542843,0
Markers.EhListings (correctness),Passed,00:00:00.3385026,813960,0
Markers.English2Listings (correctness),Passed,00:00:00.3224572,895409,0
Capture.CaptureCounted (correctness),Passed,00:00:00.2821710,781808,0
DetectionExamples.OkUmMatches (correctness),Passed,00:00:00.2591680,288710,0
Markers.English3Listings (correctness),Passed,00:00:00.2526642,486110,0
Markers.Spanish2Listings (correctness),Passed,00:00:00.2490790,611940,0
DetectionExamples.NoPrefixMatch (correctness),Passed,00:00:00.2280773,205187,0
DetectionExamples.ListOrderNotSpeechOrder (correctness),Passed,00:00:00.2273621,390766,0
DetectionExamples.SpacingIsLiteral (correctness),Passed,00:00:00.2201989,178339,0
DetectionExamples.MultiWordMatch (correctness),Passed,00:00:00.2195328,574860,0
Markers.English1Listings (correctness),Passed,00:00:00.2146365,558391,0
Markers.English6Listings (correctness),Passed,00:00:00.2120562,454487,0
Markers.ListingsByLine (correctness),Passed,00:00:00.1968777,401856,0
Markers.Spanish1Listings (correctness),Passed,00:00:00.1934037,437065,0
Markers.AllMarkersWordBounded (correctness),Passed,00:00:00.1896335,143264,0
Sink.JoinMarkersContainsEach (correctness),Passed,00:00:00.1759964,645893,0
Hesitations.CapitalIEntriesNeverReported (correctness),Passed,00:00:00.1721453,260175,0
Hesitations.SelectFollowsListOrder (correctness),Passed,00:00:00.1655424,296258,0
DetectionExamples.OkUmLacksUh (correctness),Passed,00:00:00.1615112,179291,0
Hesitations.Detect (well-formedness),Passed,00:00:00.1573489,51083,0
Hesitations.StandaloneMarkerReported (correctness),Passed,00:00:00.1428539,105912,0
Hesitations.MatchingIndicesAreTheMatches (correctness),Passed,00:00:00.1398570,179342,0
Markers.English5Listings (correctness),Passed,00:00:00.1382657,190772,0
Hesitations.SelectMembers (correctness),Passed,00:00:00.1357761,52172,0
Hesitations.UppercaseMarkerNeverReported (well-formedness),Passed,00:00:00.1332412,46949,0
Hesitations.UppercaseMarkerNeverReported (correctness),Passed,00:00:00.1305636,85790,0
Capture.CaptureUntilInterrupted (well-formedness),Passed,00:00:00.1277788,55174,0
Markers.ListingsOfConcat (correctness),Passed,00:00:00.1271647,104910,0
Sink.SaveTranscription (well-formedness),Passed,00:00:00.1192909,80460,0
Paths.TranscriptNameHasNoSlash (correctness),Passed,00:00:00.1144491,189454,0
Capture.NegativeDurationReadsNothing (well-formedness),Passed,00:00:00.1126492,60344,0
Hesitations.DetectHesitations (correctness),Passed,00:00:00.1083084,158212,0
Markers.English4Listings (correctness),Passed,00:00:00.1072271,166763,0
Paths.TranscriptPathOfAudioFile (correctness),Passed,00:00:00.1063018,201172,0
DetectionExamples.ExamplesOnMarkerList (correctness),Passed,00:00:00.1059260,162792,0
Capture.CaptureUntilInterrupted (correctness),Passed,00:00:00.1030302,195398,0
Hesitations.MatchingIndices (well-formedness),Passed,00:00:00.1029938,58906,0
Capture.BoundedRecordingLength (correctness),Passed,00:00:00.1016103,130836,0
DetectionExamples.ExampleMarkersListed (correctness),Passed,00:00:00.1006830,258183,0
Sink.SectionPresentIffDetected (correctness),Passed,00:00:00.0993472,36075,0
Hesitations.StandaloneMarkerReported (well-formedness),Passed,00:00:00.0957017,54643,0
Hesitations.Search (correctness),Passed,00:00:00.0944261,74434,0
Capture.ConcatOfFullChunks (correctness),Passed,00:00:00.0923594,429703,0
Markers.ListingsOfLines (correctness),Passed,00:00:00.0869556,48326,0
Hesitations.Select (well-formedness),Passed,00:00:00.0841973,34244,0
Capture.Captured (well-formedness),Passed,00:00:00.0837660,144026,0
DetectionExamples.UpperCaseSpeechMatches (correctness),Passed,00:00:00.0831192,337224,0
Markers.Spanish2WordBounded (correctness),Passed,00:00:00.0769663,77163,0
Sink.JoinMarkersAppend (correctness),Passed,00:00:00.0766055,197306,0
Markers.ListingsIsMultiplicity (correctness),Passed,00:00:00.0765055,48079,0
Hesitations.SelectCount (correctness),Passed,00:00:00.0747044,81901,0
Capture.RecordAudio (well-formedness),Passed,00:00:00.0740861,101614,0
Capture.RecordAudio (correctness),Passed,00:00:00.0738963,122744,0
Timing.FloorDivBounds (correctness),Passed,00:00:00.0715360,14538,0
Markers.AllWordBoundedConcat (correctness),Passed,00:00:00.0710550,22836,0
Paths.StemHasNoSlash (correctness),Passed,00:00:00.0698084,90702,0
Capture.InterruptKeepsChunksRead (well-formedness),Passed,00:00:00.0695431,61730,0
Capture.NegativeDurationReadsNothing (correctness),Passed,00:00:00.0685635,66247,0
Hesitations.DetectIn (correctness),Passed,00:00:00.0681996,74615,0
Hesitations.DetectIgnoresCase (correctness),Passed,00:00:00.0676739,52972,0
Capture.BoundedRecordingLength (well-formedness),Passed,00:00:00.0651074,71710,0
Hesitations.MatchingIndicesAreTheMatches (well-formedness),Passed,00:00:00.0645130,32300,0
Markers.English2WordBounded (correctness),Passed,00:00:00.0617416,125163,0
Paths.DistinctTimestampsDistinctPaths (correctness),Passed,00:00:00.0615698,184604,0
Hesitations.EmptyTranscriptDetectsNothing (correctness),Passed,00:00:00.0612559,68080,0
Capture.CaptureFrames (correctness),Passed,00:00:00.0611832,82065,0
Paths.BasenameOfJoin (correctness),Passed,00:00:00.0600014,36358,0
Text.LowerUnchanged (correctness),Passed,00:00:00.0592742,29108,0
Markers.Spanish1WordBounded (correctness),Passed,00:00:00.0581357,117286,0
Paths.Splitext (well-formedness),Passed,00:00:00.0569212,81240,0
Timing.FloorDivBounds (well-formedness),Passed,00:00:00.0559133,5247,0
Capture.CaptureFrames (well-formedness),Passed,00:00:00.0551094,76184,0
Sink.ContentReadsBack (correctness),Passed,00:00:00.0543205,68038,0
Capture.InterruptKeepsChunksRead (correctness),Passed,00:00:00.0531975,59768,0
Markers.English1WordBounded (correctness),Passed,00:00:00.0530548,106225,0
Paths.AudioNameHasNoSlash (correctness),Passed,00:00:00.0525817,74930,0
Paths.SplitextOfStem (well-formedness),Passed,00:00:00.0524846,25936,0
Hesitations.SelectFollowsListOrder (well-formedness),Passed,00:00:00.0523310,33292,0
Capture.CaptureCounted (well-formedness),Passed,00:00:00.0519666,74030,0
Markers.English6WordBounded (correctness),Passed,00:00:00.0518853,113672,0
Markers.English3WordBounded (correctness),Passed,00:00:00.0515833,98596,0
Sink.JoinMarkers (well-formedness),Passed,00:00:00.0505064,26328,0
Markers.English4WordBounded (correctness),Passed,00:00:00.0503886,92767,0
Sink.NotFoundAfterForeignPrefix (correctness),Passed,00:00:00.0498722,52271,0
Sink.NoSectionWhenNothingDetected (correctness),Passed,00:00:00.0495852,59388,0
Paths.PathJoin (well-formedness),Passed,00:00:00.0493769,27495,0
Markers.English5WordBounded (correctness),Passed,00:00:00.0492628,94280,0
Paths.SplitextOfStem (correctness),Passed,00:00:00.0488722,90320,0
Text.LowerIsNormal (correctness),Passed,00:00:00.0482743,39997,0
Capture.ReadFailureLosesCapture (correctness),Passed,00:00:00.0474432,54392,0
Paths.TranscriptPath (well-formedness),Passed,00:00:00.0468532,45091,0
Capture.ReadFailureLosesCapture (well-formedness),Passed,00:00:00.0466411,53262,0
Timing.NumChunksClosedForm (correctness),Passed,00:00:00.0466401,22134,0
Text.OccursBetween (correctness),Passed,00:00:00.0463248,14616,0
Text.Lower (well-formedness),Passed,00:00:00.0455973,40666,0
Sink.SectionWhenDetected (correctness),Passed,00:00:00.0447550,83382,0
Markers.Listings (well-formedness),Passed,00:00:00.0437565,14580,0
Capture.ChunksOf (well-formedness),Passed,00:00:00.0429678,40888,0
Sink.NotFoundAfterForeignPrefix (well-formedness),Passed,00:00:00.0423411,14898,0
Hesitations.SelectNoneFound (well-formedness),Passed,00:00:00.0416234,26488,0
Capture.ConcatAppend (correctness),Passed,00:00:00.0410209,44407,0
Sink.TotalLength (well-formedness),Passed,00:00:00.0407067,12441,0
Timing.CountdownBounds (correctness),Passed,00:00:00.0406735,36834,0
Capture.StopIndexAt (correctness),Passed,00:00:00.0399801,17465,0
Markers.ListingsOfLines (well-formedness),Passed,00:00:00.0395238,18625,0
Text.LowerAppend (correctness),Passed,00:00:00.0392813,42938,0
Sink.Content (well-formedness),Passed,00:00:00.0386111,40398,0
Capture.PlanFor (well-formedness),Passed,00:00:00.0374959,21778,0
Hesitations.SelectNoneFound (correctness),Passed,00:00:00.0369516,33918,0
Capture.StopIndex (well-formedness),Passed,00:00:00.0366346,40653,0
Sink.ContentReadsBack (well-formedness),Passed,00:00:00.0361821,36641,0
Paths.Basename (well-formedness),Passed,00:00:00.0350117,33107,0
Timing.TruncDiv (well-formedness),Passed,00:00:00.0346376,26394,0
Capture.StopIndexAt (well-formedness),Passed,00:00:00.0343671,15228,0
Text.LastIndexOf (well-formedness),Passed,00:00:00.0337399,36801,0
Text.LowerChar (well-formedness),Passed,00:00:00.0332323,11965,0
Sink.JoinMarkersLength (correctness),Passed,00:00:00.0331548,37584,0
Paths.AudioFile (well-formedness),Passed,00:00:00.0331461,50527,0
Timing.CountdownNonIncreasing (well-formedness),Passed,00:00:00.0321623,8016,0
Hesitations.MatchAtWordBounded (correctness),Passed,00:00:00.0319937,29860,0
Paths.JoinIntoOutputFolder (correctness),Passed,00:00:00.0299829,34088,0
Markers.AllWordBounded (well-formedness),Passed,00:00:00.0299062,13302,0
Text.LowerKeepsWordChars (correctness),Passed,00:00:00.0297276,12048,0
Text.LastIndexOfUnique (well-formedness),Passed,00:00:00.0293521,11594,0
Text.NoUpper (well-formedness),Passed,00:00:00.0287017,11018,0
Timing.NumChunks (well-formedness),Passed,00:00:00.0278572,15735,0
Sink.JoinMarkersContainsEach (well-formedness),Passed,00:00:00.0278028,19474,0
Hesitations.Found (well-formedness),Passed,00:00:00.0274680,27720,0
Hesitations.MatchAtWordBounded (well-formedness),Passed,00:00:00.0270313,21425,0
Capture.Supplies (well-formedness),Passed,00:00:00.0264702,18574,0
Capture.ConcatOfFullChunks (well-formedness),Passed,00:00:00.0264143,27991,0
Text.OccursAt (well-formedness),Passed,00:00:00.0263662,10615,0
Paths.IsTimestamp (well-formedness),Passed,00:00:00.0263645,10493,0
Paths.NoSlash (well-formedness),Passed,00:00:00.0261458,8628,0
Timing.Countdown (well-formedness),Passed,00:00:00.0243741,11944,0
Timing.CountdownNonIncreasing (correctness),Passed,00:00:00.0239192,15954,0
Text.LastIndexOfUnique (correctness),Passed,00:00:00.0230904,18867,0
Hesitations.StrictlyIncreasing (well-formedness),Passed,00:00:00.0224088,9512,0
Timing.NumChunksClosedForm (well-formedness),Passed,00:00:00.0219409,7961,0
Hesitations.WordAt (well-formedness),Passed,00:00:00.0205319,10863,0
Capture.Concat (well-formedness),Passed,00:00:00.0200838,16095,0
Markers.WordBounded (well-formedness),Passed,00:00:00.0181522,11429,0
Paths.NoSlashAppend (correctness),Passed,00:00:00.0181096,12422,0
Capture.byte (well-formedness),Passed,00:00:00.0124631,3672,0
