/** The annotation records both annotators write as JSON: one per frame, and
    a file per video. */
module Annotations {

  /** `ethical_flags` */
  datatype Flags = Flags(manipulated: bool, cropped: bool, contextLoss: bool, biasDetected: bool)

  /** One entry of `annotations`. */
  datatype Annotation = Annotation(frameId: string, trustworthinessScore: real, ethicalFlags: Flags, notes: string)

  /** The JSON document: `video_id`, `source`, `total_frames`, `annotations`. */
  datatype AnnotationFile = AnnotationFile(videoId: string, source: string, totalFrames: int,
                                           annotations: seq<Annotation>)

  /** The file a run writes, and the directories it creates first. */
  datatype SavedAnnotations = SavedAnnotations(madeDirs: seq<string>, path: string, file: AnnotationFile)
}
