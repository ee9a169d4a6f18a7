/**
 * Application settings (backend/app/core/config.py): the fields the matching
 * engine reads, their defaults, and the two derived properties
 * `is_local_mode` and `embedding_dimension`.
 */
module Config {

  /** The settings the vector-store service depends on. Scores are reals. */
  datatype Settings = Settings(
    milvusMode: string,
    milvusHost: string,
    milvusPort: int,
    milvusLocalPath: string,
    faceModel: string,
    similarityThreshold: real,
    topKResults: int
  )

  /** The values used when no environment variable overrides them. */
  function DefaultSettings(): Settings {
    Settings("local", "localhost", 19530, "data/milvus_faces.db", "Facenet512", 0.95, 5)
  }

  /** ASCII lower-casing of one character. */
  function LowerChar(c: char): (r: char)
    ensures 'A' <= c <= 'Z' ==> 'a' <= r <= 'z' && r as int - c as int == 32
    ensures !('A' <= c <= 'Z') ==> r == c
  {
    if 'A' <= c <= 'Z' then (c as int + 32) as char else c
  }

  /** `str.lower()`, restricted to the ASCII letters. */
  function Lower(s: string): (r: string)
    ensures |r| == |s|
    ensures forall i :: 0 <= i < |s| ==> r[i] == LowerChar(s[i])
  {
    if s == [] then [] else [LowerChar(s[0])] + Lower(s[1..])
  }

  /** True when the service talks to the embedded local index rather than a remote server. */
  predicate IsLocalMode(settings: Settings)
    ensures IsLocalMode(settings) ==> |settings.milvusMode| == 5
  {
    Lower(settings.milvusMode) == "local"
  }

  /** The table of embedding sizes per face model. */
  const ModelDimensions: map<string, nat> := map[
    "Facenet" := 128,
    "Facenet512" := 512,
    "VGG-Face" := 2622,
    "OpenFace" := 128,
    "DeepFace" := 4096,
    "ArcFace" := 512,
    "SFace" := 128
  ]

  /** The embedding size for a face model, 512 for a model the table does not know. */
  function EmbeddingDimension(faceModel: string): (d: nat)
    ensures d in {128, 512, 2622, 4096}
    ensures d >= 128
    ensures faceModel in ModelDimensions ==> d == ModelDimensions[faceModel]
    ensures faceModel !in {"Facenet", "Facenet512", "VGG-Face", "OpenFace", "DeepFace", "ArcFace", "SFace"} ==> d == 512
  {
    if faceModel in ModelDimensions then ModelDimensions[faceModel] else 512
  }

  /** The collection holding one face model's embeddings. */
  function CollectionName(faceModel: string): (name: string)
    ensures |name| == |"face_embeddings_"| + |faceModel|
    ensures name[..|"face_embeddings_"|] == "face_embeddings_"
    ensures name[|"face_embeddings_"|..] == faceModel
  {
    "face_embeddings_" + faceModel
  }

  /** Local mode is chosen exactly by the five letters of "local" in any mix of cases. */
  lemma IsLocalModeIff(settings: Settings)
    ensures IsLocalMode(settings) <==>
      |settings.milvusMode| == 5 &&
      forall i :: 0 <= i < 5 ==> settings.milvusMode[i] in {"local"[i], "LOCAL"[i]}
  {
    var m := settings.milvusMode;
    if |m| == 5 && forall i :: 0 <= i < 5 ==> m[i] in {"local"[i], "LOCAL"[i]} {
      assert Lower(m) == "local" by {
        forall i | 0 <= i < 5 ensures Lower(m)[i] == "local"[i] {
          assert m[i] in {"local"[i], "LOCAL"[i]};
        }
      }
    }
    if IsLocalMode(settings) {
      forall i | 0 <= i < 5 ensures m[i] in {"local"[i], "LOCAL"[i]} {
        assert LowerChar(m[i]) == "local"[i];
      }
    }
  }

  /** Every spelling other than a case variant of "local" selects the remote server. */
  lemma ModeExamples()
    ensures IsLocalMode(DefaultSettings().(milvusMode := "LoCaL"))
    ensures !IsLocalMode(DefaultSettings().(milvusMode := "remote"))
    ensures !IsLocalMode(DefaultSettings().(milvusMode := "locl"))
    ensures !IsLocalMode(DefaultSettings().(milvusMode := " local"))
  {
    IsLocalModeIff(DefaultSettings().(milvusMode := "LoCaL"));
    IsLocalModeIff(DefaultSettings().(milvusMode := "remote"));
    IsLocalModeIff(DefaultSettings().(milvusMode := "locl"));
    IsLocalModeIff(DefaultSettings().(milvusMode := " local"));
  }

  /** The seven listed models get their table size; lookup is case-sensitive, so "facenet" falls back to 512. */
  lemma EmbeddingDimensionTable()
    ensures EmbeddingDimension("Facenet") == 128
    ensures EmbeddingDimension("Facenet512") == 512
    ensures EmbeddingDimension("VGG-Face") == 2622
    ensures EmbeddingDimension("OpenFace") == 128
    ensures EmbeddingDimension("DeepFace") == 4096
    ensures EmbeddingDimension("ArcFace") == 512
    ensures EmbeddingDimension("SFace") == 128
    ensures EmbeddingDimension("facenet") == 512
    ensures EmbeddingDimension("") == 512
  {
    assert "facenet" !in ModelDimensions by {
      assert "facenet"[0] != "Facenet"[0];
      assert "facenet" != "Facenet512" && "facenet" != "VGG-Face" && "facenet" != "OpenFace";
      assert "facenet" != "DeepFace" && "facenet" != "ArcFace" && "facenet" != "SFace";
    }
  }

  /**
   * The defaults: local mode (with the remote server's host and port and the local
   * database path configured anyway), Facenet512 (hence 512 dimensions),
   * threshold 0.95, five results.
   */
  lemma Defaults()
    ensures IsLocalMode(DefaultSettings())
    ensures DefaultSettings().milvusHost == "localhost" && DefaultSettings().milvusPort == 19530
    ensures DefaultSettings().milvusLocalPath == "data/milvus_faces.db"
    ensures DefaultSettings().faceModel == "Facenet512"
    ensures EmbeddingDimension(DefaultSettings().faceModel) == 512
    ensures CollectionName(DefaultSettings().faceModel) == "face_embeddings_Facenet512"
    ensures DefaultSettings().similarityThreshold == 0.95
    ensures DefaultSettings().topKResults == 5
  {
  }
}
