/** The fixed word lists of the transcript cleaner, in declaration order. */
module Lexicon {

  /** Misrecognised term and its correction, applied in this order. */
  const Corrections: seq<(string, string)> := [
    ("CSECSE", "CSE"),
    ("emo", "MIT"),
    ("MT", "MIT"),
    ("GCG", "GCC"),
    ("on deline", "unsigned"),
    ("on line", "unsigned"),
    ("DP sic", "DNS"),
    ("DP 这 c", "DNS"),
    ("slogal", "throughput"),
    ("suput", "throughput"),
    ("fluwput", "throughput"),
    ("fluwook", "throughput"),
    ("lillilenance", "latency"),
    ("latx", "latency"),
    ("titilalization", "utilization"),
    ("comcomtibility", "compatibility"),
    ("comtitiity", "compatibility"),
    ("usubility", "usability"),
    ("usiability", "usability"),
    ("consistcy", "consistency"),
    ("consisency", "consistency"),
    ("fortorrent", "fault tolerance"),
    ("prison priicy", "privacy"),
    ("agr", "API"),
    ("RDA", "RDMA"),
    ("RDV", "RDMA"),
    ("RDB", "RDMA"),
    ("DCQB", "DCQP"),
    ("DCQQ", "DCQP"),
    ("VR sleep", "VMsleep"),
    ("eleicc", "elastic"),
    ("eleicted", "elastic"),
    ("obscility", "mobility"),
    ("migration", "migration"),
    ("NNCC", "NCCL"),
    ("mmedia", "NCCL"),
    ("mltage cass", "multi-cast"),
    ("consistency y", "consistency"),
    ("coninicence", "consistency"),
    ("短信四 g", "consistency")
  ]

  /** Phrases whose presence anywhere in a line marks it as noise, in
      declaration order: the opening chatter, then (from 生活的中要 on) the
      chatter at the end of a recording. */
  const NoiseKeywords: seq<string> :=
    ["对不起", "加油", "嗯嗯", "嘘嘘", "嗯", "啊", "这个这个", "那个那个"] +
    ["等一会儿", "让我重新", "能不能", "听不到", "你让我", "找到吗"] +
    ["不好意思", "没事", "随便", "眼睛", "不是", "没有", "什么"] +
    ["怎么", "为什么", "哪里", "多少", "多少回", "卖这个事情"] +
    ["不想脸", "抖音", "直接问", "到底", "直接捡到", "老师就"] +
    ["欢迎坚持", "几点", "明明白", "中一年", "不行", "走没有"] +
    ["听不是", "不能坚果", "都西好", "做成一家应家", "发展费"] +
    ["不变变了", "不愿意再看", "随便的眼睛"] +
    ["生活的中要", "如果你不说", "还把拿的手子", "去年秋季的头产"] +
    ["年趋势", "查烧竹", "放的么", "熟猪", "还好吧", "没什么意思"] +
    ["一直所以", "我上回那别来", "北京也好吃的", "都是", "你说可以"] +
    ["反正也没意思", "一年一年给吃", "我饭就不吃了", "你们那不如"] +
    ["我们家努力不服", "亲个么么哒", "一嘘", "刚我们家", "小嗯"] +
    ["有我们你更清了", "提供珍惜", "我写作", "是是嗯嘘", "嗯爱很好"] +
    ["放心", "来亲个", "么么哒"]

  /** Topic words that make a non-noise line count as lecture content. */
  const CourseKeywords: seq<string> := ["CSP", "课程", "上课", "系统", "计算机", "我们", "大家", "这个", "那个"]
}
